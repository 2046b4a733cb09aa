/** Encodings that a decoder inverts exactly, and the ways to build larger ones from smaller ones. */
module Codecs {
  import opened Arith
  import opened Primitives

  type Bytes = seq<byte>

  /** A decoded value and how many bytes it took. */
  datatype Parsed<+T> = Parsed(value: T, used: nat)

  /** A printer, a parser for the front of the input, the values the format admits, and the fewest bytes
      any of them takes. */
  datatype Codec<!T> = Codec(enc: T -> Bytes, dec: Bytes -> Option<Parsed<T>>, ok: T -> bool, min: nat)

  /** Printing then parsing, whatever follows, gives the value back and leaves the rest. */
  ghost predicate PrintsBack<T(!new)>(c: Codec<T>) {
    forall v: T, rest: Bytes :: c.ok(v) ==> c.dec(c.enc(v) + rest) == Some(Parsed(v, |c.enc(v)|))
  }

  /** What is parsed is admissible, and prints to exactly the bytes it was parsed from. */
  ghost predicate ParsesBack<T(!new)>(c: Codec<T>) {
    forall s: Bytes :: c.dec(s).Some? ==>
      var r := c.dec(s).value;
      r.used <= |s| && c.ok(r.value) && c.enc(r.value) == s[..r.used]
  }

  ghost predicate Lawful<T(!new)>(c: Codec<T>) {
    && PrintsBack(c)
    && ParsesBack(c)
    && (forall v: T :: c.ok(v) ==> |c.enc(v)| >= c.min)
  }

  lemma PrintsOne<A(!new)>(c: Codec<A>, v: A, rest: Bytes)
    requires Lawful(c) && c.ok(v)
    ensures c.dec(c.enc(v) + rest) == Some(Parsed(v, |c.enc(v)|)) && |c.enc(v)| >= c.min
  {
  }

  lemma ParsesOne<A(!new)>(c: Codec<A>, s: Bytes)
    requires Lawful(c) && c.dec(s).Some?
    ensures var r := c.dec(s).value; r.used <= |s| && c.ok(r.value) && c.enc(r.value) == s[..r.used]
  {
  }

  lemma LawfulFromParts<A(!new)>(c: Codec<A>)
    requires PrintsBack(c) && ParsesBack(c) && forall v: A :: c.ok(v) ==> |c.enc(v)| >= c.min
    ensures Lawful(c)
  {
  }

  // --- The same bytes, read as something else ---

  function MappedDec<A, B>(a: Codec<A>, into: A -> B, ok: B -> bool, s: Bytes): Option<Parsed<B>> {
    match a.dec(s)
    case None => None
    case Some(x) => if ok(into(x.value)) then Some(Parsed(into(x.value), x.used)) else None
  }

  function Mapped<A, B>(a: Codec<A>, into: A -> B, back: B -> A, ok: B -> bool): Codec<B> {
    Codec((v: B) => a.enc(back(v)), (s: Bytes) => MappedDec(a, into, ok, s), (v: B) => ok(v) && a.ok(back(v)), a.min)
  }

  lemma MappedLawful<A(!new), B(!new)>(a: Codec<A>, into: A -> B, back: B -> A, ok: B -> bool)
    requires Lawful(a)
    requires forall v: B :: ok(v) && a.ok(back(v)) ==> into(back(v)) == v
    requires forall x: A :: a.ok(x) && ok(into(x)) ==> back(into(x)) == x
    ensures Lawful(Mapped(a, into, back, ok))
  {
    hide Lawful;
    var c := Mapped(a, into, back, ok);
    forall v: B, rest: Bytes | c.ok(v) ensures c.dec(c.enc(v) + rest) == Some(Parsed(v, |c.enc(v)|)) {
      PrintsOne(a, back(v), rest);
    }
    forall s: Bytes | c.dec(s).Some?
      ensures var r := c.dec(s).value; r.used <= |s| && c.ok(r.value) && c.enc(r.value) == s[..r.used]
    {
      ParsesOne(a, s);
    }
    forall v: B | c.ok(v) ensures |c.enc(v)| >= c.min {
      PrintsOne(a, back(v), []);
    }
    LawfulFromParts(c);
  }

  // --- The rest depends on what came before ---

  function DependentDec<A, B>(a: Codec<A>, b: A -> Codec<B>, s: Bytes): Option<Parsed<(A, B)>> {
    match a.dec(s)
    case None => None
    case Some(x) =>
      if x.used > |s| then None
      else
        match b(x.value).dec(s[x.used..])
        case None => None
        case Some(y) => Some(Parsed((x.value, y.value), x.used + y.used))
  }

  function Dependent<A, B>(a: Codec<A>, b: A -> Codec<B>, min: nat): Codec<(A, B)> {
    Codec((v: (A, B)) => a.enc(v.0) + b(v.0).enc(v.1), (s: Bytes) => DependentDec(a, b, s),
          (v: (A, B)) => a.ok(v.0) && b(v.0).ok(v.1), a.min + min)
  }

  lemma DependentLawful<A(!new), B(!new)>(a: Codec<A>, b: A -> Codec<B>, min: nat)
    requires Lawful(a) && forall x: A :: Lawful(b(x)) && b(x).min >= min
    ensures Lawful(Dependent(a, b, min))
  {
    hide Lawful;
    var c := Dependent(a, b, min);
    forall v: (A, B), rest: Bytes | c.ok(v) ensures c.dec(c.enc(v) + rest) == Some(Parsed(v, |c.enc(v)|)) {
      var x, y := a.enc(v.0), b(v.0).enc(v.1);
      PrintsOne(a, v.0, y + rest);
      PrintsOne(b(v.0), v.1, rest);
      assert x + y + rest == x + (y + rest);
      assert (x + (y + rest))[|x|..] == y + rest;
    }
    forall s: Bytes | c.dec(s).Some?
      ensures var r := c.dec(s).value; r.used <= |s| && c.ok(r.value) && c.enc(r.value) == s[..r.used]
    {
      ParsesOne(a, s);
      var x := a.dec(s).value;
      ParsesOne(b(x.value), s[x.used..]);
      var y := b(x.value).dec(s[x.used..]).value;
      assert s[..x.used] + s[x.used..][..y.used] == s[..x.used + y.used];
    }
    forall v: (A, B) | c.ok(v) ensures |c.enc(v)| >= c.min {
      PrintsOne(a, v.0, []);
      PrintsOne(b(v.0), v.1, []);
    }
    LawfulFromParts(c);
  }

  /** One after the other. */
  function Pair<A, B>(a: Codec<A>, b: Codec<B>): Codec<(A, B)> {
    Dependent(a, (x: A) => b, b.min)
  }

  lemma PairLawful<A(!new), B(!new)>(a: Codec<A>, b: Codec<B>)
    requires Lawful(a) && Lawful(b)
    ensures Lawful(Pair(a, b))
  {
    DependentLawful(a, (x: A) => b, b.min);
  }

  // --- Fixed-width integers ---

  function ToLittle(v: nat, n: nat): (s: Bytes)
    ensures |s| == n
  {
    if n == 0 then [] else [v % 256] + ToLittle(v / 256, n - 1)
  }

  function FromLittle(s: Bytes): nat {
    if s == [] then 0 else s[0] + 256 * FromLittle(s[1..])
  }

  lemma {:induction false} LittleThere(v: nat, n: nat)
    requires v < Pow(256, n)
    ensures FromLittle(ToLittle(v, n)) == v
  {
    if n > 0 {
      assert v / 256 < Pow(256, n - 1);
      LittleThere(v / 256, n - 1);
      assert ToLittle(v, n)[1..] == ToLittle(v / 256, n - 1);
    }
  }

  lemma {:induction false} LittleBack(s: Bytes)
    ensures FromLittle(s) < Pow(256, |s|) && ToLittle(FromLittle(s), |s|) == s
  {
    if s != [] {
      LittleBack(s[1..]);
      var v := FromLittle(s[1..]);
      DivModUnique(FromLittle(s), 256, v, s[0]);
      assert s == [s[0]] + s[1..];
    }
  }

  function TakeDec(n: nat, s: Bytes): Option<Parsed<Bytes>> {
    if |s| < n then None else Some(Parsed(s[..n], n))
  }

  /** Exactly `n` bytes. */
  function Raw(n: nat): Codec<Bytes> {
    Codec((v: Bytes) => v, (s: Bytes) => TakeDec(n, s), (v: Bytes) => |v| == n, n)
  }

  lemma RawLawful(n: nat)
    ensures Lawful(Raw(n))
  {
    forall v: Bytes, rest: Bytes | |v| == n ensures TakeDec(n, v + rest) == Some(Parsed(v, |v|)) {
      assert (v + rest)[..n] == v;
    }
  }

  /** An unsigned integer of `n` bytes, least significant first. */
  function Unsigned(n: nat): Codec<nat> {
    Mapped(Raw(n), (s: Bytes) => FromLittle(s), (v: nat) => ToLittle(v, n), (v: nat) => v < Pow(256, n))
  }

  lemma UnsignedLawful(n: nat)
    ensures Lawful(Unsigned(n))
  {
    RawLawful(n);
    forall v: nat | v < Pow(256, n) ensures FromLittle(ToLittle(v, n)) == v {
      LittleThere(v, n);
    }
    forall s: Bytes | |s| == n ensures ToLittle(FromLittle(s), n) == s {
      LittleBack(s);
    }
    MappedLawful(Raw(n), (s: Bytes) => FromLittle(s), (v: nat) => ToLittle(v, n), (v: nat) => v < Pow(256, n));
  }

  /** Two's complement in eight bytes. */
  function Signed64(): Codec<int> {
    Mapped(Unsigned(8), (u: nat) => FromTwos(u), (x: int) => ToTwos(x), (x: int) => FitsInt64(x))
  }

  function FromTwos(u: nat): int {
    if u > INT64_MAX then u - UINT64_LIMIT else u
  }

  function ToTwos(x: int): nat {
    x % UINT64_LIMIT
  }

  lemma Signed64Lawful()
    ensures Lawful(Signed64())
  {
    UnsignedLawful(8);
    assert Pow(256, 8) == UINT64_LIMIT;
    forall x: int | FitsInt64(x) ensures FromTwos(ToTwos(x)) == x {
    }
    forall u: nat | Unsigned(8).ok(u) ensures ToTwos(FromTwos(u)) == u {
    }
    MappedLawful(Unsigned(8), (u: nat) => FromTwos(u), (x: int) => ToTwos(x), (x: int) => FitsInt64(x));
  }

  // --- Digests ---

  function ToBig(v: nat, n: nat): (s: Bytes)
    ensures |s| == n
  {
    if n == 0 then [] else ToBig(v / 256, n - 1) + [v % 256]
  }

  function FromBig(s: Bytes): nat {
    if s == [] then 0 else 256 * FromBig(s[..|s| - 1]) + s[|s| - 1]
  }

  lemma {:induction false} BigThere(v: nat, n: nat)
    requires v < Pow(256, n)
    ensures FromBig(ToBig(v, n)) == v
  {
    if n > 0 {
      assert v / 256 < Pow(256, n - 1);
      BigThere(v / 256, n - 1);
      assert ToBig(v, n)[..n - 1] == ToBig(v / 256, n - 1);
    }
  }

  lemma {:induction false} BigBack(s: Bytes)
    ensures FromBig(s) < Pow(256, |s|) && ToBig(FromBig(s), |s|) == s
  {
    if s != [] {
      var n := |s| - 1;
      BigBack(s[..n]);
      DivModUnique(FromBig(s), 256, FromBig(s[..n]), s[n]);
      assert s == s[..n] + [s[n]];
    }
  }

  const HASH_SIZE: nat := 32

  function Digest(): Codec<Hash256> {
    Mapped(Raw(HASH_SIZE), (s: Bytes) => Hash256(FromBig(s)), (h: Hash256) => ToBig(h.value, HASH_SIZE),
           (h: Hash256) => h.value < Pow(256, HASH_SIZE))
  }

  lemma DigestLawful()
    ensures Lawful(Digest())
  {
    hide Pow;
    RawLawful(HASH_SIZE);
    forall h: Hash256 | h.value < Pow(256, HASH_SIZE) ensures Hash256(FromBig(ToBig(h.value, HASH_SIZE))) == h {
      BigThere(h.value, HASH_SIZE);
    }
    forall s: Bytes | |s| == HASH_SIZE ensures ToBig(FromBig(s), HASH_SIZE) == s {
      BigBack(s);
    }
    MappedLawful(Raw(HASH_SIZE), (s: Bytes) => Hash256(FromBig(s)), (h: Hash256) => ToBig(h.value, HASH_SIZE),
                 (h: Hash256) => h.value < Pow(256, HASH_SIZE));
  }

  // --- Lengths ---

  /** The shortest form that fits. */
  function CompactEnc(v: nat): Bytes {
    if v < 0xFD then [v]
    else if v <= 0xFFFF then [0xFD] + ToLittle(v, 2)
    else if v <= 0xFFFF_FFFF then [0xFE] + ToLittle(v, 4)
    else [0xFF] + ToLittle(v, 8)
  }

  /** Any longer form is refused, never normalised. */
  function CompactDec(s: Bytes): Option<Parsed<nat>> {
    if s == [] then None
    else if s[0] < 0xFD then Some(Parsed(s[0], 1))
    else if s[0] == 0xFD then WideDec(s, 2, 0xFD)
    else if s[0] == 0xFE then WideDec(s, 4, 0x1_0000)
    else WideDec(s, 8, 0x1_0000_0000)
  }

  function WideDec(s: Bytes, n: nat, least: nat): Option<Parsed<nat>>
    requires s != []
  {
    if |s| < n + 1 then None
    else if FromLittle(s[1..n + 1]) < least then None
    else Some(Parsed(FromLittle(s[1..n + 1]), n + 1))
  }

  lemma WidePrints(v: nat, n: nat, least: nat, tag: byte, rest: Bytes)
    requires least <= v < Pow(256, n)
    ensures var s := [tag] + ToLittle(v, n) + rest;
            WideDec(s, n, least) == Some(Parsed(v, n + 1)) && s[0] == tag
  {
    var s := [tag] + ToLittle(v, n) + rest;
    assert s[1..n + 1] == ToLittle(v, n);
    LittleThere(v, n);
  }

  lemma WideParses(s: Bytes, n: nat, least: nat)
    requires s != [] && WideDec(s, n, least).Some?
    ensures var r := WideDec(s, n, least).value;
            r.used == n + 1 <= |s| && least <= r.value < Pow(256, n) && [s[0]] + ToLittle(r.value, n) == s[..r.used]
  {
    LittleBack(s[1..n + 1]);
  }

  lemma CompactPrints(v: nat, rest: Bytes)
    requires v < UINT64_LIMIT
    ensures CompactDec(CompactEnc(v) + rest) == Some(Parsed(v, |CompactEnc(v)|))
  {
    hide WideDec, Pow;
    Powers();
    if 0xFD <= v <= 0xFFFF {
      WidePrints(v, 2, 0xFD, 0xFD, rest);
    } else if 0xFFFF < v <= 0xFFFF_FFFF {
      WidePrints(v, 4, 0x1_0000, 0xFE, rest);
    } else if v > 0xFFFF_FFFF {
      WidePrints(v, 8, 0x1_0000_0000, 0xFF, rest);
    }
  }

  lemma Powers()
    ensures Pow(256, 1) == 256 && Pow(256, 2) == 0x1_0000 && Pow(256, 4) == UINT32_LIMIT && Pow(256, 8) == UINT64_LIMIT
  {
  }

  lemma CompactParses(s: Bytes)
    requires CompactDec(s).Some?
    ensures var r := CompactDec(s).value;
            r.used <= |s| && r.value < UINT64_LIMIT && CompactEnc(r.value) == s[..r.used]
  {
    hide WideDec, Pow;
    Powers();
    if s[0] == 0xFD {
      WideParses(s, 2, 0xFD);
    } else if s[0] == 0xFE {
      WideParses(s, 4, 0x1_0000);
    } else if s[0] == 0xFF {
      WideParses(s, 8, 0x1_0000_0000);
    }
  }

  lemma CompactNotEmpty(v: nat)
    ensures |CompactEnc(v)| >= 1
  {
  }

  // --- Counted sequences ---

  function ManyEnc<A>(c: Codec<A>, vs: seq<A>): Bytes {
    if vs == [] then [] else c.enc(vs[0]) + ManyEnc(c, vs[1..])
  }

  function ManyDec<A>(c: Codec<A>, n: nat, s: Bytes): Option<Parsed<seq<A>>> {
    if n == 0 then Some(Parsed([], 0))
    else
      match c.dec(s)
      case None => None
      case Some(x) =>
        if x.used > |s| then None
        else
          match ManyDec(c, n - 1, s[x.used..])
          case None => None
          case Some(xs) => Some(Parsed([x.value] + xs.value, x.used + xs.used))
  }

  predicate AllOk<A>(c: Codec<A>, vs: seq<A>) {
    forall i :: 0 <= i < |vs| ==> c.ok(vs[i])
  }

  /** A length the bytes that are left could hold, at `min` bytes an element. */
  function PlausibleDec(min: nat, s: Bytes): Option<Parsed<nat>> {
    if min == 0 then None
    else
      match CompactDec(s)
      case None => None
      case Some(n) => if n.used > |s| || n.value > (|s| - n.used) / min then None else Some(n)
  }

  /** The same, and no more than `max`. */
  function CountDec(min: nat, max: nat, s: Bytes): Option<Parsed<nat>> {
    match PlausibleDec(min, s)
    case None => None
    case Some(n) => if n.value > max then None else Some(n)
  }

  function ListDec<A>(c: Codec<A>, max: nat, s: Bytes): Option<Parsed<seq<A>>>
    requires c.min > 0
  {
    match CountDec(c.min, max, s)
    case None => None
    case Some(n) =>
      if n.used > |s| then None
      else
        match ManyDec(c, n.value, s[n.used..])
        case None => None
        case Some(xs) => Some(Parsed(xs.value, n.used + xs.used))
  }

  /** A count and that many elements. */
  function List<A>(c: Codec<A>, max: nat): Codec<seq<A>>
    requires c.min > 0
  {
    Codec((vs: seq<A>) => CompactEnc(|vs|) + ManyEnc(c, vs), (s: Bytes) => ListDec(c, max, s),
          (vs: seq<A>) => |vs| <= max && |vs| < UINT64_LIMIT && AllOk(c, vs), 1)
  }

  lemma {:induction false} ManyPrints<A(!new)>(c: Codec<A>, vs: seq<A>, rest: Bytes)
    requires Lawful(c) && AllOk(c, vs)
    ensures ManyDec(c, |vs|, ManyEnc(c, vs) + rest) == Some(Parsed(vs, |ManyEnc(c, vs)|))
    decreases |vs|
  {
    hide Lawful;
    if vs != [] {
      var x, tail := c.enc(vs[0]), ManyEnc(c, vs[1..]);
      ManyPrints(c, vs[1..], rest);
      PrintsOne(c, vs[0], tail + rest);
      assert x + tail + rest == x + (tail + rest);
      assert (x + (tail + rest))[|x|..] == tail + rest;
      assert vs == [vs[0]] + vs[1..];
    }
  }

  lemma {:induction false} ManySize<A(!new)>(c: Codec<A>, vs: seq<A>)
    requires Lawful(c) && AllOk(c, vs)
    ensures |ManyEnc(c, vs)| >= |vs| * c.min
  {
    hide Lawful;
    if vs != [] {
      ManySize(c, vs[1..]);
      PrintsOne(c, vs[0], []);
      MulSucc(|vs| - 1, c.min);
    }
  }

  lemma {:induction false} ManyParses<A(!new)>(c: Codec<A>, n: nat, s: Bytes)
    requires Lawful(c) && ManyDec(c, n, s).Some?
    ensures var r := ManyDec(c, n, s).value;
            r.used <= |s| && |r.value| == n && AllOk(c, r.value) && ManyEnc(c, r.value) == s[..r.used]
  {
    hide Lawful;
    if n > 0 {
      ParsesOne(c, s);
      var x := c.dec(s).value;
      ManyParses(c, n - 1, s[x.used..]);
      var xs := ManyDec(c, n - 1, s[x.used..]).value;
      assert ([x.value] + xs.value)[1..] == xs.value;
      assert s[..x.used] + s[x.used..][..xs.used] == s[..x.used + xs.used];
    }
  }

  /** A genuine count is never refused: the elements it announces are there. */
  lemma CountPrints(n: nat, min: nat, max: nat, body: Bytes)
    requires min > 0 && n <= max && n < UINT64_LIMIT && |body| >= n * min
    ensures CountDec(min, max, CompactEnc(n) + body) == Some(Parsed(n, |CompactEnc(n)|))
  {
    hide CompactEnc, CompactDec;
    CompactPrints(n, body);
    DivMono(n * min, |body|, min);
    DivModUnique(n * min, min, n, 0);
  }

  lemma ListLawful<A(!new)>(c: Codec<A>, max: nat)
    requires Lawful(c) && c.min > 0
    ensures Lawful(List(c, max))
  {
    hide CompactEnc, CompactDec, ManyEnc, ManyDec, AllOk, Lawful;
    var l := List(c, max);
    forall vs: seq<A>, rest: Bytes | l.ok(vs) ensures l.dec(l.enc(vs) + rest) == Some(Parsed(vs, |l.enc(vs)|)) {
      ListPrints(c, max, vs, rest);
    }
    forall s: Bytes | l.dec(s).Some?
      ensures var r := l.dec(s).value; r.used <= |s| && l.ok(r.value) && l.enc(r.value) == s[..r.used]
    {
      ListParses(c, max, s);
    }
    forall vs: seq<A> | l.ok(vs) ensures |l.enc(vs)| >= 1 {
      CompactNotEmpty(|vs|);
    }
    LawfulFromParts(l);
  }

  lemma ListPrints<A(!new)>(c: Codec<A>, max: nat, vs: seq<A>, rest: Bytes)
    requires Lawful(c) && c.min > 0 && List(c, max).ok(vs)
    ensures ListDec(c, max, CompactEnc(|vs|) + ManyEnc(c, vs) + rest)
         == Some(Parsed(vs, |CompactEnc(|vs|) + ManyEnc(c, vs)|))
  {
    hide CompactEnc, CompactDec, ManyEnc, ManyDec, Lawful, CountDec;
    var head, body := CompactEnc(|vs|), ManyEnc(c, vs);
    ManyPrints(c, vs, rest);
    ManySize(c, vs);
    assert head + body + rest == head + (body + rest);
    CountPrints(|vs|, c.min, max, body + rest);
    assert (head + (body + rest))[|head|..] == body + rest;
  }

  lemma ListParses<A(!new)>(c: Codec<A>, max: nat, s: Bytes)
    requires Lawful(c) && c.min > 0 && ListDec(c, max, s).Some?
    ensures var r := ListDec(c, max, s).value;
            r.used <= |s| && List(c, max).ok(r.value) && CompactEnc(|r.value|) + ManyEnc(c, r.value) == s[..r.used]
  {
    hide CompactEnc, CompactDec, ManyEnc, ManyDec, Lawful;
    CompactParses(s);
    var n := CompactDec(s).value;
    ManyParses(c, n.value, s[n.used..]);
    var xs := ManyDec(c, n.value, s[n.used..]).value;
    assert s[..n.used] + s[n.used..][..xs.used] == s[..n.used + xs.used];
  }

  // --- Counted bytes ---

  function StringDec(max: nat, s: Bytes): Option<Parsed<Bytes>> {
    match CountDec(1, max, s)
    case None => None
    case Some(n) =>
      if n.used + n.value > |s| then None else Some(Parsed(s[n.used..n.used + n.value], n.used + n.value))
  }

  /** A length and that many bytes. */
  function ByteString(max: nat): Codec<Bytes> {
    Codec((v: Bytes) => CompactEnc(|v|) + v, (s: Bytes) => StringDec(max, s),
          (v: Bytes) => |v| <= max && |v| < UINT64_LIMIT, 1)
  }

  lemma ByteStringLawful(max: nat)
    ensures Lawful(ByteString(max))
  {
    hide CompactEnc, CompactDec, CountDec;
    var c := ByteString(max);
    forall v: Bytes, rest: Bytes | c.ok(v) ensures c.dec(c.enc(v) + rest) == Some(Parsed(v, |c.enc(v)|)) {
      var head := CompactEnc(|v|);
      assert head + v + rest == head + (v + rest);
      CountPrints(|v|, 1, max, v + rest);
      assert (head + (v + rest))[|head|..|head| + |v|] == v;
    }
    forall s: Bytes | c.dec(s).Some?
      ensures var r := c.dec(s).value; r.used <= |s| && c.ok(r.value) && c.enc(r.value) == s[..r.used]
    {
      CountParses(1, max, s);
      var n := CountDec(1, max, s).value;
      assert s[..n.used] + s[n.used..n.used + n.value] == s[..n.used + n.value];
    }
    forall v: Bytes ensures |c.enc(v)| >= 1 {
      CompactNotEmpty(|v|);
    }
  }

  lemma CountParses(min: nat, max: nat, s: Bytes)
    requires min > 0 && CountDec(min, max, s).Some?
    ensures var n := CountDec(min, max, s).value;
            n.used <= |s| && n.value <= max && n.value < UINT64_LIMIT && CompactEnc(n.value) == s[..n.used]
  {
    hide CompactEnc, CompactDec;
    CompactParses(s);
  }
}
