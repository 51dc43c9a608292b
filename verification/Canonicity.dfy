/** When the JA4 string shows the order of the extensions: exactly when two of them disagree about the protocol name or
    carry signature algorithms whose concatenation depends on the order. */
module Canonicity {
  import opened Wire
  import opened Sequences
  import opened ClientHello
  import opened Fingerprints
  import JA4

  // ---- gathering over a permutation ----

  lemma {:induction false} GatherConcat<T>(a: seq<Extension>, b: seq<Extension>, g: Extension -> seq<T>)
    ensures Gather(a + b, g) == Gather(a, g) + Gather(b, g)
  {
    if a == [] {
      assert a + b == b;
    } else {
      assert (a + b)[1..] == a[1..] + b;
      GatherConcat(a[1..], b, g);
    }
  }

  lemma GatherOne<T>(x: Extension, g: Extension -> seq<T>)
    ensures Gather([x], g) == g(x)
  {
    assert [x][1..] == [];
  }

  lemma GatherInserted<T>(a: seq<Extension>, x: Extension, b: seq<Extension>, g: Extension -> seq<T>)
    ensures Gather((a + [x]) + b, g) == Gather(a, g) + g(x) + Gather(b, g)
  {
    GatherConcat(a + [x], b, g);
    GatherConcat(a, [x], g);
    GatherOne(x, g);
  }

  lemma GatherWithout<T>(s: seq<Extension>, i: nat, rest: seq<Extension>, g: Extension -> seq<T>)
    requires i < |s| && rest == s[..i] + s[i + 1..]
    ensures multiset(Gather(s, g)) == multiset(Gather(rest, g)) + multiset(g(s[i]))
  {
    Parts(s, i);
    GatherInserted(s[..i], s[i], s[i + 1..], g);
    GatherConcat(s[..i], s[i + 1..], g);
  }

  /** What a permutation gathers is a permutation of what was gathered. */
  lemma {:induction false} GatherContents<T>(xs: seq<Extension>, ys: seq<Extension>, g: Extension -> seq<T>)
    requires multiset(xs) == multiset(ys)
    ensures multiset(Gather(xs, g)) == multiset(Gather(ys, g))
  {
    if xs == [] {
      assert |multiset(ys)| == |ys|;
    } else {
      var i, xr, yr := SameFirst(xs, ys);
      GatherContents(xr, yr, g);
      GatherWithout(xs, 0, xr, g);
      GatherWithout(ys, i, yr, g);
    }
  }

  lemma SameFirst(xs: seq<Extension>, ys: seq<Extension>) returns (i: nat, xr: seq<Extension>, yr: seq<Extension>)
    requires multiset(xs) == multiset(ys) && xs != []
    ensures i < |ys| && ys[i] == xs[0]
    ensures xr == xs[..0] + xs[1..] && yr == ys[..i] + ys[i + 1..] && multiset(xr) == multiset(yr) && |xr| < |xs|
  {
    assert xs[0] in multiset(ys);
    i :| 0 <= i < |ys| && ys[i] == xs[0];
    xr, yr := xs[..0] + xs[1..], ys[..i] + ys[i + 1..];
    Without(xs, 0);
    Without(ys, i);
  }

  /** Any two contributions may be exchanged. */
  ghost predicate Commute<T(!new)>(xs: seq<Extension>, g: Extension -> seq<T>) {
    forall x, y | x in xs && y in xs :: g(x) + g(y) == g(y) + g(x)
  }

  lemma {:induction false} MoveToFront<T(!new)>(a: seq<Extension>, x: Extension, g: Extension -> seq<T>)
    requires forall y | y in a :: g(y) + g(x) == g(x) + g(y)
    ensures Gather(a, g) + g(x) == g(x) + Gather(a, g)
  {
    if a != [] {
      var first, rest := g(a[0]), Gather(a[1..], g);
      MoveToFront(a[1..], x, g);
      assert (first + rest) + g(x) == first + (rest + g(x));
      assert first + (g(x) + rest) == (first + g(x)) + rest;
      assert (g(x) + first) + rest == g(x) + (first + rest);
    }
  }

  /** Then the order does not matter at all. */
  lemma {:induction false} GatherCommutes<T(!new)>(xs: seq<Extension>, ys: seq<Extension>, g: Extension -> seq<T>)
    requires multiset(xs) == multiset(ys) && Commute(xs, g)
    ensures Gather(xs, g) == Gather(ys, g)
  {
    if xs == [] {
      assert |multiset(ys)| == |ys|;
    } else {
      var i, xr, yr := SameFirst(xs, ys);
      assert xr == xs[1..];
      GatherCommutes(xr, yr, g);
      FirstOfPermuted(xs, ys, i, g);
      assert Gather(xs, g) == g(xs[0]) + Gather(xr, g);
    }
  }

  lemma Moved<T(!new)>(a: seq<Extension>, x: Extension, b: seq<Extension>, g: Extension -> seq<T>)
    requires forall y | y in a :: g(y) + g(x) == g(x) + g(y)
    ensures Gather((a + [x]) + b, g) == g(x) + Gather(a + b, g)
  {
    MoveToFront(a, x, g);
    GatherInserted(a, x, b, g);
    GatherConcat(a, b, g);
    Regroup(g(x), Gather(a, g), Gather(b, g));
  }

  lemma Regroup<T>(x: seq<T>, a: seq<T>, b: seq<T>)
    ensures (x + a) + b == x + (a + b)
  {
  }

  lemma FirstOfPermuted<T(!new)>(xs: seq<Extension>, ys: seq<Extension>, i: nat, g: Extension -> seq<T>)
    requires multiset(xs) == multiset(ys) && Commute(xs, g) && i < |ys|
    ensures Gather(ys, g) == g(ys[i]) + Gather(ys[..i] + ys[i + 1..], g)
  {
    SameItems(xs, ys);
    Parts(ys, i);
    Moved(ys[..i], ys[i], ys[i + 1..], g);
  }

  lemma SameItems(xs: seq<Extension>, ys: seq<Extension>)
    requires multiset(xs) == multiset(ys)
    ensures forall y | y in ys :: y in xs
  {
    forall y | y in ys ensures y in xs {
      assert y in multiset(ys);
    }
  }

  lemma TakeOut(xs: seq<Extension>, x: Extension) returns (rest: seq<Extension>)
    requires x in xs
    ensures multiset(xs) == multiset(rest) + multiset{x}
  {
    var i :| 0 <= i < |xs| && xs[i] == x;
    rest := xs[..i] + xs[i + 1..];
    Without(xs, i);
  }

  lemma EndPair(rest: seq<Extension>, x: Extension, y: Extension)
    ensures multiset(rest + [x, y]) == multiset(rest) + multiset{y} + multiset{x}
  {
  }

  /** Two different items can be moved to the end. */
  lemma TwoLast(xs: seq<Extension>, x: Extension, y: Extension) returns (rest: seq<Extension>)
    requires x in xs && y in xs && x != y
    ensures multiset(rest + [x, y]) == multiset(xs) == multiset(rest + [y, x])
  {
    var others := TakeOut(xs, x);
    assert y in multiset(xs);
    assert y in multiset(others);
    rest := TakeOut(others, y);
    EndPair(rest, x, y);
    EndPair(rest, y, x);
  }

  lemma GatherTwoLast<T>(rest: seq<Extension>, x: Extension, y: Extension, g: Extension -> seq<T>)
    ensures Gather(rest + [x, y], g) == Gather(rest, g) + (g(x) + g(y))
  {
    assert rest + [x, y] == (rest + [x]) + [y];
    GatherInserted(rest, x, [y], g);
    GatherOne(y, g);
  }

  // ---- what every permutation keeps ----

  function KindIn(x: Extension): seq<uint16> { [Kind(x)] }
  function RealIn(x: Extension): seq<Extension> { if IsGrease(Kind(x)) then [] else [x] }
  function BytesIn(x: Extension): seq<byte> {
    if BodyFits(x) then Be16(Kind(x)) + Be16(|Body(x)|) + Body(x) else []
  }

  lemma {:induction false} Gathered(xs: seq<Extension>)
    ensures KindsOf(xs) == Gather(xs, KindIn)
    ensures Real(xs) == Gather(xs, RealIn)
    ensures AllFit(xs) ==> EncodeExtensions(xs) == Gather(xs, BytesIn)
  {
    if xs != [] {
      Gathered(xs[1..]);
    }
  }

  lemma PermutationKeeps(xs: seq<Extension>, ys: seq<Extension>)
    requires multiset(xs) == multiset(ys)
    ensures multiset(KindsOf(xs)) == multiset(KindsOf(ys)) && multiset(Real(xs)) == multiset(Real(ys))
    ensures AllFit(xs) ==> AllFit(ys) && |EncodeExtensions(xs)| == |EncodeExtensions(ys)|
  {
    Gathered(xs);
    Gathered(ys);
    GatherContents(xs, ys, KindIn);
    GatherContents(xs, ys, RealIn);
    if AllFit(xs) {
      SameItems(xs, ys);
      GatherContents(xs, ys, BytesIn);
      assert |multiset(EncodeExtensions(xs))| == |multiset(EncodeExtensions(ys))|;
    }
  }

  lemma PermutationFits(h: Hello, ys: seq<Extension>)
    requires Fits(h) && multiset(h.extensions) == multiset(ys)
    ensures Fits(h.(extensions := ys))
  {
    PermutationKeeps(h.extensions, ys);
  }

  // ---- the condition ----

  /** Same version, same real ciphers and same real extensions, in any order and with any GREASE between. */
  ghost predicate SameContents(h: Hello, k: Hello) {
    && h.version == k.version
    && multiset(NonGrease(h.ciphers)) == multiset(NonGrease(k.ciphers))
    && multiset(Real(h.extensions)) == multiset(Real(k.extensions))
  }

  /** All extensions that name a protocol show the same two characters, and any two lists of signature algorithms give
      the same concatenation in either order. */
  ghost predicate OrderFree(xs: seq<Extension>) {
    forall x, y | x in xs && y in xs ::
      && (AlpnOf(x) == [] || AlpnOf(y) == [] || AlpnOf(x) == AlpnOf(y))
      && SigAlgsOf(x) + SigAlgsOf(y) == SigAlgsOf(y) + SigAlgsOf(x)
  }

  lemma GatherRealContents<T(!new)>(h: Hello, k: Hello, g: Extension -> seq<T>, kind: uint16)
    requires SameContents(h, k) && OnlyFor(g, kind) && !IsGrease(kind)
    ensures multiset(Gather(h.extensions, g)) == multiset(Gather(k.extensions, g))
    ensures Commute(Real(h.extensions), g) ==> Gather(h.extensions, g) == Gather(k.extensions, g)
  {
    GatherReal(h.extensions, g, kind);
    GatherReal(k.extensions, g, kind);
    GatherContents(Real(h.extensions), Real(k.extensions), g);
    if Commute(Real(h.extensions), g) {
      GatherCommutes(Real(h.extensions), Real(k.extensions), g);
    }
  }

  lemma RealKinds(h: Hello, k: Hello)
    requires SameContents(h, k)
    ensures multiset(NonGrease(KindsOf(h.extensions))) == multiset(NonGrease(KindsOf(k.extensions)))
  {
    KindsOfReal(h.extensions);
    KindsOfReal(k.extensions);
    PermutationKeeps(Real(h.extensions), Real(k.extensions));
  }

  lemma ContentsFields(h: Hello, k: Hello)
    requires SameContents(h, k) && OrderFree(Real(h.extensions))
    ensures JA4.SameUpToOrder(Ja4FieldsOf(h), Ja4FieldsOf(k))
  {
    RealKinds(h, k);
    FlagsKept(h, k);
    AlpnKept(h, k);
    SigAlgsKept(h, k);
  }

  lemma SameMembers<T>(s: seq<T>, t: seq<T>, x: T)
    requires multiset(s) == multiset(t)
    ensures x in s <==> x in t
    ensures s == [] <==> t == []
  {
    assert x in s <==> x in multiset(s);
    assert x in t <==> x in multiset(t);
    assert |multiset(s)| == |s| && |multiset(t)| == |t|;
  }

  lemma FlagsKept(h: Hello, k: Hello)
    requires SameContents(h, k)
    ensures 0x0304 in Gather(h.extensions, VersionsOf) <==> 0x0304 in Gather(k.extensions, VersionsOf)
    ensures Gather(h.extensions, NamesOf) == [] <==> Gather(k.extensions, NamesOf) == []
  {
    InterpretedKindsAreNotGrease();
    GatherRealContents(h, k, VersionsOf, 43);
    GatherRealContents(h, k, NamesOf, 0);
    SameMembers(Gather(h.extensions, VersionsOf), Gather(k.extensions, VersionsOf), 0x0304);
    SameMembers(Gather(h.extensions, NamesOf), Gather(k.extensions, NamesOf), 0);
  }

  lemma OrderFreeCommutes(xs: seq<Extension>)
    requires OrderFree(xs)
    ensures Commute<char>(xs, AlpnOf) && Commute(xs, SigAlgsOf)
  {
    forall x, y | x in xs && y in xs ensures AlpnOf(x) + AlpnOf(y) == AlpnOf(y) + AlpnOf(x) {
      assert AlpnOf(x) == [] || AlpnOf(y) == [] || AlpnOf(x) == AlpnOf(y);
    }
  }

  lemma AlpnKept(h: Hello, k: Hello)
    requires SameContents(h, k) && OrderFree(Real(h.extensions))
    ensures Gather(h.extensions, AlpnOf) == Gather(k.extensions, AlpnOf)
  {
    InterpretedKindsAreNotGrease();
    OrderFreeCommutes(Real(h.extensions));
    GatherRealContents<char>(h, k, AlpnOf, 16);
  }

  lemma SigAlgsKept(h: Hello, k: Hello)
    requires SameContents(h, k) && OrderFree(Real(h.extensions))
    ensures Gather(h.extensions, SigAlgsOf) == Gather(k.extensions, SigAlgsOf)
  {
    InterpretedKindsAreNotGrease();
    OrderFreeCommutes(Real(h.extensions));
    GatherRealContents(h, k, SigAlgsOf, 13);
  }

  // ---- the converse ----

  lemma LastPair(s: string, y: string)
    requires |y| == 2
    ensures JA4.Last2("00" + (s + y)) == y
  {
  }

  lemma AlpnTwoLast(h: Hello, rest: seq<Extension>, x: Extension, y: Extension)
    requires |AlpnOf(y)| == 2
    ensures Ja4FieldsOf(h.(extensions := rest + [x, y])).alpn == AlpnOf(y)
  {
    GatherTwoLast<char>(rest, x, y, AlpnOf);
    LastPair(Gather(rest, AlpnOf) + AlpnOf(x), AlpnOf(y));
    assert Gather(rest, AlpnOf) + (AlpnOf(x) + AlpnOf(y)) == (Gather(rest, AlpnOf) + AlpnOf(x)) + AlpnOf(y);
  }

  /** If the condition fails, some other order of the extensions gives other fields. */
  lemma OrderShows(h: Hello) returns (k: Hello)
    requires Fits(h) && !OrderFree(Real(h.extensions))
    ensures Fits(k) && SameContents(h, k)
    ensures Ja4FieldsOf(h).alpn != Ja4FieldsOf(k).alpn || Ja4FieldsOf(h).sigAlgs != Ja4FieldsOf(k).sigAlgs
  {
    var xs := Real(h.extensions);
    var x, y :| x in xs && y in xs
      && !((AlpnOf(x) == [] || AlpnOf(y) == [] || AlpnOf(x) == AlpnOf(y))
           && SigAlgsOf(x) + SigAlgsOf(y) == SigAlgsOf(y) + SigAlgsOf(x));
    RealIncluded(h.extensions, x);
    RealIncluded(h.extensions, y);
    var rest := TwoLast(h.extensions, x, y);
    var k1, k2 := h.(extensions := rest + [x, y]), h.(extensions := rest + [y, x]);
    PermutationFits(h, rest + [x, y]);
    PermutationFits(h, rest + [y, x]);
    PermutationKeeps(h.extensions, rest + [x, y]);
    PermutationKeeps(h.extensions, rest + [y, x]);
    ExchangeShows(h, rest, x, y);
    var differs := Ja4FieldsOf(h).alpn != Ja4FieldsOf(k1).alpn || Ja4FieldsOf(h).sigAlgs != Ja4FieldsOf(k1).sigAlgs;
    k := if differs then k1 else k2;
  }

  lemma {:induction false} RealIncluded(xs: seq<Extension>, x: Extension)
    requires x in Real(xs)
    ensures x in xs
  {
    if x != xs[0] {
      RealIncluded(xs[1..], x);
    }
  }

  lemma ExchangeShows(h: Hello, rest: seq<Extension>, x: Extension, y: Extension)
    requires (AlpnOf(x) != [] && AlpnOf(y) != [] && AlpnOf(x) != AlpnOf(y))
             || SigAlgsOf(x) + SigAlgsOf(y) != SigAlgsOf(y) + SigAlgsOf(x)
    ensures var f, g := Ja4FieldsOf(h.(extensions := rest + [x, y])), Ja4FieldsOf(h.(extensions := rest + [y, x]));
            f.alpn != g.alpn || f.sigAlgs != g.sigAlgs
  {
    if SigAlgsOf(x) + SigAlgsOf(y) != SigAlgsOf(y) + SigAlgsOf(x) {
      GatherTwoLast(rest, x, y, SigAlgsOf);
      GatherTwoLast(rest, y, x, SigAlgsOf);
      Cancel(Gather(rest, SigAlgsOf), SigAlgsOf(x) + SigAlgsOf(y), SigAlgsOf(y) + SigAlgsOf(x));
    } else {
      AlpnTwoLast(h, rest, x, y);
      AlpnTwoLast(h, rest, y, x);
    }
  }

  lemma Cancel<T>(a: seq<T>, b: seq<T>, c: seq<T>)
    requires b != c
    ensures a + b != a + c
  {
    assert (a + b)[|a|..] == b && (a + c)[|a|..] == c;
  }

  /** The fields of a hello are the same for every order of its contents exactly under the condition. */
  lemma CanonicalExactly(h: Hello)
    requires Fits(h)
    ensures (forall k | Fits(k) && SameContents(h, k) :: JA4.SameUpToOrder(Ja4FieldsOf(h), Ja4FieldsOf(k)))
       <==> OrderFree(Real(h.extensions))
  {
    if OrderFree(Real(h.extensions)) {
      forall k | Fits(k) && SameContents(h, k) ensures JA4.SameUpToOrder(Ja4FieldsOf(h), Ja4FieldsOf(k)) {
        ContentsFields(h, k);
      }
    } else {
      var k := OrderShows(h);
    }
  }

  // ---- the same of the strings of parsed records ----

  /** The string of a hello's record, with `after` following it in memory. */
  function StringOf(h: Hello, minor: byte, after: seq<byte>, sha: JA4.Hash): Outcome<string>
    requires Fits(h)
  {
    JA4.Print(JA4.Fingerprint(Record(h, minor) + after, |Record(h, minor)|), sha)
  }

  lemma StringPrinted(h: Hello, minor: byte, after: seq<byte>, sha: JA4.Hash)
    requires Fits(h)
    ensures StringOf(h, minor, after, sha) == Parsed(JA4.Raw(Ja4FieldsOf(h), sha))
  {
    Ja4RoundTrip(h, minor, after, |Record(h, minor)|);
  }

  function HashedText(h: Hello): string {
    JA4.ExtensionText(Ja4FieldsOf(h).extensions, Ja4FieldsOf(h).sigAlgs)
  }

  /** The truncated hash tells the extension texts of the orders of this one hello apart. */
  ghost predicate NoCollision(h: Hello, sha: JA4.Hash) {
    forall k | Fits(k) && SameContents(h, k) ::
      JA4.TruncatedSHA256(sha, HashedText(h)) == JA4.TruncatedSHA256(sha, HashedText(k))
      ==> HashedText(h) == HashedText(k)
  }

  /** JA4 is canonical: where the condition holds, every order and every GREASE gives the same string, whatever random,
      session id, compression list, record version and trailing bytes the record carries. */
  lemma OrderFreeStrings(h: Hello, k: Hello, m1: byte, m2: byte, a1: seq<byte>, a2: seq<byte>, sha: JA4.Hash)
    requires Fits(h) && Fits(k) && SameContents(h, k) && OrderFree(Real(h.extensions))
    ensures StringOf(h, m1, a1, sha) == StringOf(k, m2, a2, sha)
  {
    StringPrinted(h, m1, a1, sha);
    StringPrinted(k, m2, a2, sha);
    ContentsFields(h, k);
    JA4.RawIgnoresOrder(Ja4FieldsOf(h), Ja4FieldsOf(k), sha);
  }

  /** Where it fails, some order prints another string. */
  lemma OrderShowsInString(h: Hello, minor: byte, after: seq<byte>, sha: JA4.Hash) returns (k: Hello)
    requires Fits(h) && !OrderFree(Real(h.extensions)) && NoCollision(h, sha)
    ensures Fits(k) && SameContents(h, k) && StringOf(h, minor, after, sha) != StringOf(k, minor, after, sha)
  {
    k := OrderShows(h);
    StringPrinted(h, minor, after, sha);
    StringPrinted(k, minor, after, sha);
    HelloFieldsWellFormed(h);
    HelloFieldsWellFormed(k);
    FieldsShowInString(Ja4FieldsOf(h), Ja4FieldsOf(k), HashedText(h), HashedText(k), sha);
  }

  lemma HelloFieldsWellFormed(h: Hello)
    ensures JA4.WellFormed(Ja4FieldsOf(h))
  {
  }

  lemma FieldsShowInString(f: JA4.Fields, g: JA4.Fields, s: string, t: string, sha: JA4.Hash)
    requires JA4.WellFormed(f) && JA4.WellFormed(g) && multiset(f.ciphers) == multiset(g.ciphers)
    requires s == JA4.ExtensionText(f.extensions, f.sigAlgs) && t == JA4.ExtensionText(g.extensions, g.sigAlgs)
    requires JA4.TruncatedSHA256(sha, s) == JA4.TruncatedSHA256(sha, t) ==> s == t
    requires f.alpn != g.alpn || f.sigAlgs != g.sigAlgs
    ensures JA4.Raw(f, sha) != JA4.Raw(g, sha)
  {
    JA4.CipherTextFaithful(f.ciphers, g.ciphers);
    JA4.RawFaithful(f, g, sha);
  }

  /** A hello's string is the same for every order of its contents exactly when the condition holds. */
  lemma StringsCanonicalExactly(h: Hello, minor: byte, after: seq<byte>, sha: JA4.Hash)
    requires Fits(h) && NoCollision(h, sha)
    ensures (forall k, m: byte, a: seq<byte> | Fits(k) && SameContents(h, k) ::
               StringOf(k, m, a, sha) == StringOf(h, minor, after, sha))
       <==> OrderFree(Real(h.extensions))
  {
    if OrderFree(Real(h.extensions)) {
      forall k, m: byte, a: seq<byte> | Fits(k) && SameContents(h, k)
        ensures StringOf(k, m, a, sha) == StringOf(h, minor, after, sha)
      {
        OrderFreeStrings(h, k, minor, m, after, a, sha);
      }
    } else {
      var k := OrderShowsInString(h, minor, after, sha);
    }
  }

  // ---- distinct and repeated types ----

  ghost predicate DistinctKinds(xs: seq<Extension>) {
    forall i, j | 0 <= i < j < |xs| :: Kind(xs[i]) != Kind(xs[j])
  }

  lemma DistinctIsOrderFree(xs: seq<Extension>)
    requires DistinctKinds(xs)
    ensures OrderFree(xs)
  {
    forall x, y | x in xs && y in xs
      ensures AlpnOf(x) == [] || AlpnOf(y) == [] || AlpnOf(x) == AlpnOf(y)
      ensures SigAlgsOf(x) + SigAlgsOf(y) == SigAlgsOf(y) + SigAlgsOf(x)
    {
      var i :| 0 <= i < |xs| && xs[i] == x;
      var j :| 0 <= j < |xs| && xs[j] == y;
    }
  }

  /** With distinct extension types, permuting ciphers or extensions and inserting GREASE anywhere changes nothing. */
  lemma Ja4Canonical(h: Hello, k: Hello, m1: byte, m2: byte, a1: seq<byte>, a2: seq<byte>, sha: JA4.Hash)
    requires Fits(h) && Fits(k) && SameContents(h, k) && DistinctKinds(Real(h.extensions))
    ensures StringOf(h, m1, a1, sha) == StringOf(k, m2, a2, sha) && StringOf(h, m1, a1, sha).Parsed?
  {
    DistinctIsOrderFree(Real(h.extensions));
    OrderFreeStrings(h, k, m1, m2, a1, a2, sha);
    StringPrinted(h, m1, a1, sha);
  }

  lemma AlpnsDiffer(p: seq<byte>, q: seq<byte>)
    requires p != [] && q != [] && p[0] != q[0]
    ensures |AlpnOf(Alpn([p]))| == |AlpnOf(Alpn([q]))| == 2 && AlpnOf(Alpn([p])) != AlpnOf(Alpn([q]))
  {
    assert AlpnOf(Alpn([p]))[0] != AlpnOf(Alpn([q]))[0];
  }

  lemma SwapFits(h: Hello, x: Extension, y: Extension)
    requires Fits(h) && h.extensions == [x, y]
    ensures Fits(h.(extensions := [y, x])) && SameContents(h, h.(extensions := [y, x]))
  {
    assert multiset([x, y]) == multiset([y, x]);
    PermutationFits(h, [y, x]);
    PermutationKeeps([x, y], [y, x]);
  }

  lemma StringsDiffer(h: Hello, k: Hello, minor: byte, after: seq<byte>, sha: JA4.Hash)
    requires Fits(h) && Fits(k) && Ja4FieldsOf(h).alpn != Ja4FieldsOf(k).alpn
    ensures StringOf(h, minor, after, sha) != StringOf(k, minor, after, sha)
  {
    StringPrinted(h, minor, after, sha);
    StringPrinted(k, minor, after, sha);
    HelloFieldsWellFormed(h);
    HelloFieldsWellFormed(k);
    LastAlpnShows(Ja4FieldsOf(h), Ja4FieldsOf(k), sha);
  }

  /** Of two ALPN extensions the last one shows: exchanging them changes the string, for every hash. */
  lemma RepeatedAlpnShowsOrder(h: Hello, p: seq<byte>, q: seq<byte>, minor: byte, after: seq<byte>, sha: JA4.Hash)
    requires Fits(h) && h.extensions == [Alpn([p]), Alpn([q])]
    requires p != [] && q != [] && p[0] != q[0]
    ensures var k := h.(extensions := [Alpn([q]), Alpn([p])]);
            Fits(k) && SameContents(h, k) && StringOf(h, minor, after, sha) != StringOf(k, minor, after, sha)
  {
    var x, y := Alpn([p]), Alpn([q]);
    var k := h.(extensions := [y, x]);
    assert h == h.(extensions := [x, y]);
    AlpnsDiffer(p, q);
    SwapFits(h, x, y);
    AlpnPair(h, x, y);
    AlpnPair(h, y, x);
    StringsDiffer(h, k, minor, after, sha);
  }

  lemma AlpnPair(h: Hello, x: Extension, y: Extension)
    requires |AlpnOf(y)| == 2
    ensures Ja4FieldsOf(h.(extensions := [x, y])).alpn == AlpnOf(y)
  {
    assert [] + [x, y] == [x, y];
    AlpnTwoLast(h, [], x, y);
  }

  lemma LastAlpnShows(f: JA4.Fields, g: JA4.Fields, sha: JA4.Hash)
    requires JA4.WellFormed(f) && JA4.WellFormed(g) && f.alpn != g.alpn
    ensures JA4.Raw(f, sha) != JA4.Raw(g, sha)
  {
    JA4.RawParts(f, sha);
    JA4.RawParts(g, sha);
    assert JA4.Head(f)[8..] == f.alpn && JA4.Head(g)[8..] == g.alpn;
  }

  /** The protocol shown is that of the last extension that names one, and 00 without any. */
  lemma LastProtocolShows(h: Hello, a: seq<Extension>, x: Extension, b: seq<Extension>)
    requires h.extensions == a + [x] + b && Gather(b, AlpnOf) == []
    ensures |AlpnOf(x)| == 2 ==> Ja4FieldsOf(h).alpn == AlpnOf(x)
    ensures Gather(a, AlpnOf) == [] && AlpnOf(x) == [] ==> Ja4FieldsOf(h).alpn == "00"
  {
    GatherInserted<char>(a, x, b, AlpnOf);
    if |AlpnOf(x)| == 2 {
      LastPair(Gather(a, AlpnOf), AlpnOf(x));
    }
  }

  /** Repeating a type that neither names a protocol nor lists signature algorithms is harmless. */
  lemma RepeatedOthersAreOrderFree(xs: seq<Extension>)
    requires forall x | x in xs :: Kind(x) != 16 && Kind(x) != 13
    ensures OrderFree(xs)
  {
  }
}
