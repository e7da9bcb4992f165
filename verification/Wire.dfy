/** The message between driver and service (include/shared.h): two 16-bit lengths, a type byte,
    and from offset 5 the units of both strings, behind the header that holds the size.
    Numbers are little-endian, as on the machines the driver is built for. */
module Wire {
  import opened WideStrings

  type Byte = b: int | 0 <= b < 0x100

  const HEADER_SIZE: nat := 8          // sizeof(MessageHeader)
  const INFO_SIZE: nat := 6            // sizeof(InstallInfo), with one byte of its buffer
  const PAYLOAD: nat := 5              // offset of InstallInfo::buffer
  const MAX_MSG_SIZE: nat := 4096      // the service's buffers

  datatype Event = Event(isRegistry: bool, image: WString, path: WString)

  /** The low byte of a unit. */
  function Low(u: Unit): Byte {
    if u < 0x100 then u else Low(u - 0x100)
  }

  /** The high byte of a unit: how often 0x100 goes into it. */
  function High(u: Unit): (h: Byte)
    ensures 0x100 * h <= u
  {
    if u < 0x100 then 0 else High(u - 0x100) + 1
  }

  lemma {:induction false} BytesOfUnit(u: Unit)
    ensures Low(u) == u % 0x100 && High(u) == u / 0x100
  {
    if u >= 0x100 { BytesOfUnit(u - 0x100); }
  }

  /** The cast of a length to UINT16. */
  function Cut(n: nat): Unit {
    if n < 0x1_0000 then n else Cut(n - 0x1_0000)
  }

  lemma {:induction false} CutIsModulo(n: nat)
    ensures Cut(n) == n % 0x1_0000
  {
    if n >= 0x1_0000 { CutIsModulo(n - 0x1_0000); }
  }

  function Bytes(s: WString): seq<Byte> {
    if s == [] then [] else [Low(s[0]), High(s[0])] + Bytes(s[1..])
  }

  function SizeBytes(n: nat, count: nat): seq<Byte> {
    if count == 0 then [] else [n % 0x100] + SizeBytes(n / 0x100, count - 1)
  }

  function MessageSize(image: WString, path: WString): nat {
    INFO_SIZE + (|image| + |path|) * 2
  }

  /** The fixed fields of InstallInfo. */
  function Header(kind: Byte, n: Unit, m: Unit): seq<Byte> {
    [Low(n), High(n), Low(m), High(m), kind]
  }

  /** The bytes that BuildInstallInfo writes behind the header; the last one it leaves alone. */
  function Encode(kind: Byte, image: WString, path: WString): seq<Byte> {
    Header(kind, Cut(|image|), Cut(|path|)) + Bytes(NulPadded(image)) + Bytes(NulPadded(path))
  }

  lemma {:induction false} BytesLength(s: WString)
    ensures |Bytes(s)| == 2 * |s|
  {
    if s != [] { BytesLength(s[1..]); }
  }

  lemma {:induction false} BytesConcat(a: WString, b: WString)
    ensures Bytes(a + b) == Bytes(a) + Bytes(b)
  {
    if a == [] {
      assert a + b == b;
    } else {
      assert (a + b)[1..] == a[1..] + b;
      BytesConcat(a[1..], b);
    }
  }

  // ---- the encoder

  /** The array after `bytes` have been written at `at`. */
  ghost function Written(before: seq<Byte>, at: nat, bytes: seq<Byte>): seq<Byte>
    requires at + |bytes| <= |before|
  {
    before[..at] + bytes + before[at + |bytes|..]
  }

  method PutUnit(buffer: array<Byte>, at: nat, u: Unit)
    requires at + 2 <= buffer.Length
    modifies buffer
    ensures buffer[..] == Written(old(buffer[..]), at, [Low(u), High(u)])
  {
    buffer[at] := Low(u);
    buffer[at + 1] := High(u);
  }

  lemma WrittenSnoc(before: seq<Byte>, at: nat, bytes: seq<Byte>, more: seq<Byte>)
    requires at + |bytes| + |more| <= |before|
    ensures Written(Written(before, at, bytes), at + |bytes|, more) == Written(before, at, bytes + more)
  {
  }

  /** One more unit of the padded string is written. */
  lemma WrittenUnit(before: seq<Byte>, at: nat, s: WString, i: nat)
    requires i < |s| && at + 2 * |s| <= |before|
    ensures |Bytes(s[..i])| == 2 * i && |Bytes(s[..i + 1])| == 2 * i + 2
    ensures Written(Written(before, at, Bytes(s[..i])), at + 2 * i, [Low(s[i]), High(s[i])])
            == Written(before, at, Bytes(s[..i + 1]))
  {
    BytesLength(s[..i]);
    BytesLength(s[..i + 1]);
    assert s[..i + 1] == s[..i] + [s[i]];
    BytesConcat(s[..i], [s[i]]);
    assert Bytes([s[i]]) == [Low(s[i]), High(s[i])];
    WrittenSnoc(before, at, Bytes(s[..i]), [Low(s[i]), High(s[i])]);
  }

  /** The first i units of s are in place at `at`. */
  ghost predicate Filled(buffer: array<Byte>, before: seq<Byte>, at: nat, s: WString, i: nat)
    reads buffer
    requires i <= |s| && at + 2 * |s| <= |before|
  {
    |Bytes(s[..i])| == 2 * i && buffer[..] == Written(before, at, Bytes(s[..i]))
  }

  method PutNext(buffer: array<Byte>, at: nat, i: nat, u: Unit, ghost before: seq<Byte>, ghost s: WString)
    requires i < |s| && u == s[i] && at + 2 * |s| <= buffer.Length == |before|
    requires Filled(buffer, before, at, s, i)
    modifies buffer
    ensures Filled(buffer, before, at, s, i + 1)
  {
    WrittenUnit(before, at, s, i);
    PutUnit(buffer, at + 2 * i, u);
  }

  lemma PaddedAfterNul(src: WString, i: nat)
    requires i < |src| && NUL in src[..i + 1]
    ensures |NulPadded(src)| == |src| && NulPadded(src)[i] == NUL
    ensures i + 1 < |src| ==> NUL in src[..i + 2]
  {
    NulPaddedAt(src, i);
    assert src[..i + 1] == src[..i] + [src[i]];
    if i + 1 < |src| { assert src[..i + 2] == src[..i + 1] + [src[i + 1]]; }
  }

  /** wcsncpy(buffer + at, src, |src|). */
  method WcsNCpy(buffer: array<Byte>, at: nat, src: WString)
    requires at + 2 * |src| <= buffer.Length
    modifies buffer
    ensures |Bytes(NulPadded(src))| == 2 * |src|
    ensures buffer[..] == Written(old(buffer[..]), at, Bytes(NulPadded(src)))
  {
    NulPaddedLength(src);
    ghost var out, before := NulPadded(src), buffer[..];
    var i := 0;
    while i < |src| && src[i] != NUL
      invariant 0 <= i <= |src| && NUL !in src[..i]
      invariant Filled(buffer, before, at, out, i)
    {
      NulPaddedAt(src, i);
      PutNext(buffer, at, i, src[i], before, out);
      i := i + 1;
    }
    while i < |src|
      invariant 0 <= i <= |src| && (i < |src| ==> NUL in src[..i + 1])
      invariant Filled(buffer, before, at, out, i)
    {
      PaddedAfterNul(src, i);
      PutNext(buffer, at, i, NUL, before, out);
      i := i + 1;
    }
    assert out[..i] == out;
  }

  lemma {:induction false} SizeBytesLength(n: nat, count: nat)
    ensures |SizeBytes(n, count)| == count
  {
    if count > 0 { SizeBytesLength(n / 0x100, count - 1); }
  }

  /** A SIZE_T in the first eight bytes. */
  method PutSize(buffer: array<Byte>, n: nat)
    requires buffer.Length >= HEADER_SIZE
    modifies buffer
    ensures buffer[..HEADER_SIZE] == SizeBytes(n, HEADER_SIZE)
    ensures buffer[HEADER_SIZE..] == old(buffer[HEADER_SIZE..])
  {
    SizeBytesLength(n, HEADER_SIZE);
    ghost var out := SizeBytes(n, HEADER_SIZE);
    var rest := n;
    for i := 0 to HEADER_SIZE
      invariant rest >= 0 && buffer[..i] == out[..i] && SizeBytes(rest, HEADER_SIZE - i) == out[i..]
      invariant buffer[HEADER_SIZE..] == old(buffer[HEADER_SIZE..])
    {
      SizeBytesStep(rest, HEADER_SIZE - i, out[i..]);
      buffer[i] := rest % 0x100;
      rest := rest / 0x100;
    }
  }

  lemma SizeBytesStep(n: nat, count: nat, out: seq<Byte>)
    requires count > 0 && SizeBytes(n, count) == out
    ensures out != [] && out[0] == n % 0x100 && SizeBytes(n / 0x100, count - 1) == out[1..]
  {
  }

  /** BuildInstallInfo; `allocOk` tells whether the buffer can be allocated.  Everything but the
      last byte is written, and every write lies inside the buffer. */
  method BuildInstallInfo(kind: Byte, image: WString, path: WString, allocOk: bool)
    returns (buffer: array?<Byte>)
    ensures buffer != null <==> allocOk
    ensures buffer != null ==>
              && fresh(buffer)
              && buffer.Length == HEADER_SIZE + MessageSize(image, path)
              && buffer[..HEADER_SIZE] == SizeBytes(MessageSize(image, path), HEADER_SIZE)
              && |Encode(kind, image, path)| == MessageSize(image, path) - 1
              && buffer[HEADER_SIZE..buffer.Length - 1] == Encode(kind, image, path)
  {
    if !allocOk { return null; }
    var total := HEADER_SIZE + MessageSize(image, path);
    buffer := new Byte[total];
    FillMessage(buffer, kind, image, path);
    SliceJoin(buffer[..], HEADER_SIZE, HEADER_SIZE + PAYLOAD, total - 1);
  }

  lemma SliceJoin<T>(s: seq<T>, a: nat, b: nat, c: nat)
    requires a <= b <= c <= |s|
    ensures s[a..c] == s[a..b] + s[b..c]
  {
  }

  method FillMessage(buffer: array<Byte>, kind: Byte, image: WString, path: WString)
    requires buffer.Length == HEADER_SIZE + MessageSize(image, path)
    modifies buffer
    ensures buffer[..HEADER_SIZE] == SizeBytes(MessageSize(image, path), HEADER_SIZE)
    ensures buffer[HEADER_SIZE..HEADER_SIZE + PAYLOAD]
            == [Low(Cut(|image|)), High(Cut(|image|)), Low(Cut(|path|)), High(Cut(|path|)), kind]
    ensures |Bytes(NulPadded(image)) + Bytes(NulPadded(path))| == 2 * (|image| + |path|)
    ensures buffer[HEADER_SIZE + PAYLOAD..buffer.Length - 1] == Bytes(NulPadded(image)) + Bytes(NulPadded(path))
  {
    PutSize(buffer, MessageSize(image, path));
    CutIsModulo(|image|);
    CutIsModulo(|path|);
    PutInfo(buffer, HEADER_SIZE, |image| % 0x1_0000, |path| % 0x1_0000, kind);
    ghost var head := buffer[..HEADER_SIZE + PAYLOAD];
    CopyStrings(buffer, image, path);
    assert head[HEADER_SIZE..] == buffer[HEADER_SIZE..HEADER_SIZE + PAYLOAD];
    assert head[..HEADER_SIZE] == buffer[..HEADER_SIZE];
  }

  /** The fixed fields of InstallInfo. */
  method PutInfo(buffer: array<Byte>, at: nat, imageLen: Unit, pathLen: Unit, kind: Byte)
    requires at + PAYLOAD <= buffer.Length
    modifies buffer
    ensures buffer[..at] == old(buffer[..at])
    ensures buffer[at..at + PAYLOAD] == [Low(imageLen), High(imageLen), Low(pathLen), High(pathLen), kind]
    ensures buffer[at + PAYLOAD..] == old(buffer[at + PAYLOAD..])
  {
    buffer[at], buffer[at + 1] := Low(imageLen), High(imageLen);
    buffer[at + 2], buffer[at + 3] := Low(pathLen), High(pathLen);
    buffer[at + 4] := kind;
  }

  /** The two wcsncpy calls of BuildInstallInfo. */
  method CopyStrings(buffer: array<Byte>, image: WString, path: WString)
    requires buffer.Length == HEADER_SIZE + MessageSize(image, path)
    modifies buffer
    ensures buffer[..HEADER_SIZE + PAYLOAD] == old(buffer[..HEADER_SIZE + PAYLOAD])
    ensures |Bytes(NulPadded(image)) + Bytes(NulPadded(path))| == 2 * (|image| + |path|)
    ensures buffer[HEADER_SIZE + PAYLOAD..buffer.Length - 1] == Bytes(NulPadded(image)) + Bytes(NulPadded(path))
  {
    var at := HEADER_SIZE + PAYLOAD;
    WcsNCpy(buffer, at, image);
    WcsNCpy(buffer, at + 2 * |image|, path);
  }

  // ---- the decoder

  /** The unit with these bytes. */
  function Word(low: Byte, high: Byte): (u: Unit)
    ensures u <= 0x100 * high + 0xFF
  {
    if high == 0 then low else Word(low, high - 1) + 0x100
  }

  lemma {:induction false} WordIs(low: Byte, high: Byte)
    ensures Word(low, high) == 0x100 * high + low
  {
    if high > 0 { WordIs(low, high - 1); }
  }

  function UnitAt(b: seq<Byte>, at: nat): Unit
    requires at + 2 <= |b|
  {
    Word(b[at], b[at + 1])
  }

  function Units(b: seq<Byte>, at: nat, n: nat): WString
    requires at + 2 * n <= |b|
    decreases n
  {
    if n == 0 then [] else [UnitAt(b, at)] + Units(b, at + 2, n - 1)
  }

  /** What DoSingleResponse reads lies inside the buffer. */
  predicate Readable(b: seq<Byte>) {
    PAYLOAD <= |b| && PAYLOAD + 2 * (UnitAt(b, 0) + UnitAt(b, 2)) <= |b|
  }

  function Decode(b: seq<Byte>): Event
    requires Readable(b)
  {
    var imageLen: nat, pathLen: nat := UnitAt(b, 0), UnitAt(b, 2);
    Event(b[4] != 0, Units(b, PAYLOAD, imageLen), Units(b, PAYLOAD + 2 * imageLen, pathLen))
  }

  /** The std::wstring made of n units of the buffer. */
  method ReadUnits(buffer: array<Byte>, at: nat, n: nat) returns (s: WString)
    requires at + 2 * n <= buffer.Length
    ensures s == Units(buffer[..], at, n)
  {
    s := [];
    for i := 0 to n
      invariant |s| == i && s + Units(buffer[..], at + 2 * i, n - i) == Units(buffer[..], at, n)
    {
      s := s + [Word(buffer[at + 2 * i], buffer[at + 2 * i + 1])];
    }
  }

  /** The decoding half of DoSingleResponse. */
  method DecodeBuffer(buffer: array<Byte>) returns (e: Event)
    requires Readable(buffer[..])
    ensures e == Decode(buffer[..])
  {
    var imageLen: nat := Word(buffer[0], buffer[1]);
    var pathLen: nat := Word(buffer[2], buffer[3]);
    var image := ReadUnits(buffer, PAYLOAD, imageLen);
    var path := ReadUnits(buffer, PAYLOAD + 2 * imageLen, pathLen);
    e := Event(buffer[4] != 0, image, path);
  }

  // ---- the layout, by offsets

  /** The two bytes at `at` are those of u, least significant first. */
  predicate Stands(b: seq<Byte>, at: nat, u: Unit) {
    at + 1 < |b| && (b[at] as int) + 0x100 * (b[at + 1] as int) == u
  }

  lemma LowAndHigh(u: Unit)
    ensures Stands([Low(u), High(u)], 0, u)
  {
    BytesOfUnit(u);
  }

  lemma {:induction false} BytesAt(s: WString, k: nat)
    requires k < |s|
    ensures Stands(Bytes(s), 2 * k, s[k])
  {
    BytesLength(s);
    if k == 0 {
      LowAndHigh(s[0]);
    } else {
      BytesAt(s[1..], k - 1);
    }
  }

  /** Bytes 0 and 1 of InstallInfo are the length of the image, bytes 2 and 3 that of the path, both
      cut to 16 bits; byte 4 is the type. */
  lemma HeaderLayout(kind: Byte, image: WString, path: WString)
    ensures var e := Encode(kind, image, path);
            |e| >= 5 && Stands(e, 0, Cut(|image|)) && Stands(e, 2, Cut(|path|)) && e[4] == kind
  {
    LowAndHigh(Cut(|image|));
    LowAndHigh(Cut(|path|));
  }

  lemma StandsBehind(a: seq<Byte>, b: seq<Byte>, c: seq<Byte>, at: nat, u: Unit)
    requires Stands(b, at, u)
    ensures Stands(a + b + c, |a| + at, u)
  {
  }

  /** From byte 5 on come the units of the image. */
  lemma ImageLayout(kind: Byte, image: WString, path: WString, k: nat)
    requires k < |image|
    ensures k < |NulPadded(image)| && Stands(Encode(kind, image, path), 5 + 2 * k, NulPadded(image)[k])
  {
    NulPaddedLength(image);
    BytesAt(NulPadded(image), k);
    StandsBehind(Header(kind, Cut(|image|), Cut(|path|)), Bytes(NulPadded(image)), Bytes(NulPadded(path)),
                 2 * k, NulPadded(image)[k]);
  }

  /** And right behind them those of the path. */
  lemma PathLayout(kind: Byte, image: WString, path: WString, k: nat)
    requires k < |path|
    ensures k < |NulPadded(path)| && Stands(Encode(kind, image, path), 5 + 2 * |image| + 2 * k, NulPadded(path)[k])
  {
    var front := Header(kind, Cut(|image|), Cut(|path|)) + Bytes(NulPadded(image));
    NulPaddedLength(image);
    NulPaddedLength(path);
    BytesLength(NulPadded(image));
    BytesAt(NulPadded(path), k);
    StandsBehind(front, Bytes(NulPadded(path)), [], 2 * k, NulPadded(path)[k]);
    assert front + Bytes(NulPadded(path)) + [] == Encode(kind, image, path);
  }

  /** The number that bytes stand for, least significant first. */
  function Value(bytes: seq<Byte>): nat {
    if bytes == [] then 0 else bytes[0] + 0x100 * Value(bytes[1..])
  }

  function Power(count: nat): nat {
    if count == 0 then 1 else 0x100 * Power(count - 1)
  }

  /** The size in the header reads back as it was written. */
  lemma {:induction false} SizeReadsBack(n: nat, count: nat)
    requires n < Power(count)
    ensures Value(SizeBytes(n, count)) == n
  {
    if count > 0 {
      SizeReadsBack(n / 0x100, count - 1);
      assert SizeBytes(n, count)[1..] == SizeBytes(n / 0x100, count - 1);
    }
  }

  // ---- decoding what was encoded

  lemma EncodeLength(kind: Byte, image: WString, path: WString)
    ensures |Encode(kind, image, path)| == PAYLOAD + 2 * (|image| + |path|)
  {
    NulPaddedLength(image);
    NulPaddedLength(path);
    BytesLength(NulPadded(image));
    BytesLength(NulPadded(path));
  }

  lemma JoinBytes(u: Unit)
    ensures Word(Low(u), High(u)) == u
  {
    BytesOfUnit(u);
    WordIs(Low(u), High(u));
  }

  lemma SplitWord(low: Byte, high: Byte)
    ensures Low(Word(low, high)) == low && High(Word(low, high)) == high
  {
    WordIs(low, high);
    BytesOfUnit(Word(low, high));
  }

  lemma {:induction false} UnitsLength(b: seq<Byte>, at: nat, n: nat)
    requires at + 2 * n <= |b|
    ensures |Units(b, at, n)| == n
    decreases n
  {
    if n > 0 { UnitsLength(b, at + 2, n - 1); }
  }

  /** Reading back the bytes of s. */
  lemma {:induction false} UnitsOfBytes(b: seq<Byte>, at: nat, s: WString)
    requires at + 2 * |s| <= |b| && b[at..at + 2 * |s|] == Bytes(s)
    ensures Units(b, at, |s|) == s
    decreases s
  {
    if s != [] {
      var t := Bytes(s);
      assert b[at] == t[0] && b[at + 1] == t[1];
      JoinBytes(s[0]);
      assert b[at + 2..at + 2 + 2 * |s[1..]|] == t[2..];
      UnitsOfBytes(b, at + 2, s[1..]);
    }
  }

  /** And the bytes are those of what is read. */
  lemma {:induction false} BytesOfUnits(b: seq<Byte>, at: nat, n: nat)
    requires at + 2 * n <= |b|
    ensures Bytes(Units(b, at, n)) == b[at..at + 2 * n]
    decreases n
  {
    if n > 0 {
      BytesOfUnits(b, at + 2, n - 1);
      SplitWord(b[at], b[at + 1]);
      assert Units(b, at, n)[1..] == Units(b, at + 2, n - 1);
      assert b[at..at + 2 * n] == [b[at], b[at + 1]] + b[at + 2..at + 2 * n];
    }
  }

  /** A buffer with lengths n and m and the given type, and behind them the units of two strings. */
  predicate Carries(b: seq<Byte>, kind: Byte, n: Unit, m: Unit, first: WString, second: WString) {
    && PAYLOAD + 2 * (|first| + |second|) <= |b|
    && UnitAt(b, 0) == n && UnitAt(b, 2) == m && b[4] == kind
    && Units(b, PAYLOAD, |first|) == first
    && Units(b, PAYLOAD + 2 * |first|, |second|) == second
  }

  lemma HeaderIff(b: seq<Byte>, kind: Byte, n: Unit, m: Unit)
    requires PAYLOAD <= |b|
    ensures b[..PAYLOAD] == Header(kind, n, m) <==> UnitAt(b, 0) == n && UnitAt(b, 2) == m && b[4] == kind
  {
    var h := Header(kind, n, m);
    if b[..PAYLOAD] == h {
      assert b[0] == h[0] && b[1] == h[1] && b[2] == h[2] && b[3] == h[3] && b[4] == h[4];
      JoinBytes(n);
      JoinBytes(m);
    }
    if UnitAt(b, 0) == n && UnitAt(b, 2) == m && b[4] == kind {
      SplitWord(b[0], b[1]);
      SplitWord(b[2], b[3]);
      assert b[..PAYLOAD] == [b[0], b[1], b[2], b[3], b[4]];
    }
  }

  lemma StringIff(b: seq<Byte>, at: nat, s: WString)
    requires at + 2 * |s| <= |b|
    ensures b[at..at + 2 * |s|] == Bytes(s) <==> Units(b, at, |s|) == s
  {
    if b[at..at + 2 * |s|] == Bytes(s) { UnitsOfBytes(b, at, s); }
    if Units(b, at, |s|) == s { BytesOfUnits(b, at, |s|); }
  }

  lemma SlicesIff<T>(b: seq<T>, x: seq<T>, y: seq<T>, z: seq<T>)
    requires |x| + |y| + |z| <= |b|
    ensures x + y + z <= b
            <==> b[..|x|] == x && b[|x|..|x| + |y|] == y && b[|x| + |y|..|x| + |y| + |z|] == z
  {
    var e := x + y + z;
    if e <= b {
      assert e[..|x|] == x && e[|x|..|x| + |y|] == y && e[|x| + |y|..] == z;
      assert b[..|e|] == e;
    }
    if b[..|x|] == x && b[|x|..|x| + |y|] == y && b[|x| + |y|..|x| + |y| + |z|] == z {
      assert b[..|e|] == b[..|x|] + b[|x|..|x| + |y|] + b[|x| + |y|..|e|];
    }
  }

  /** Two strings behind a header are in the buffer exactly when they are read from it. */
  lemma CarriesIff(b: seq<Byte>, kind: Byte, n: Unit, m: Unit, first: WString, second: WString)
    requires PAYLOAD + 2 * (|first| + |second|) <= |b|
    ensures Header(kind, n, m) + Bytes(first) + Bytes(second) <= b <==> Carries(b, kind, n, m, first, second)
  {
    BytesLength(first);
    BytesLength(second);
    SlicesIff(b, Header(kind, n, m), Bytes(first), Bytes(second));
    HeaderIff(b, kind, n, m);
    StringIff(b, PAYLOAD, first);
    StringIff(b, PAYLOAD + 2 * |first|, second);
  }

  /** The buffer carries an event: its lengths, cut to 16 bits, and its strings, padded. */
  predicate CarriesEvent(b: seq<Byte>, kind: Byte, image: WString, path: WString) {
    Carries(b, kind, Cut(|image|), Cut(|path|), NulPadded(image), NulPadded(path))
  }

  /** A buffer starts with an encoded event exactly when it carries the event. */
  lemma EncodedIff(kind: Byte, image: WString, path: WString, b: seq<Byte>)
    ensures Encode(kind, image, path) <= b <==> CarriesEvent(b, kind, image, path)
  {
    EncodeLength(kind, image, path);
    NulPaddedLength(image);
    NulPaddedLength(path);
    if PAYLOAD + 2 * (|image| + |path|) <= |b| {
      CarriesIff(b, kind, Cut(|image|), Cut(|path|), NulPadded(image), NulPadded(path));
    }
  }

  // ---- what the decoder makes of it

  lemma {:induction false} UnitsSplit(b: seq<Byte>, at: nat, n: nat, m: nat)
    requires at + 2 * (n + m) <= |b|
    ensures Units(b, at, n + m) == Units(b, at, n) + Units(b, at + 2 * n, m)
    decreases n
  {
    if n > 0 {
      UnitsSplit(b, at + 2, n - 1, m);
    } else {
      assert Units(b, at, 0) == [];
    }
  }

  lemma UnitsOfBoth(b: seq<Byte>, at: nat, first: WString, second: WString)
    requires at + 2 * (|first| + |second|) <= |b|
    requires Units(b, at, |first|) == first && Units(b, at + 2 * |first|, |second|) == second
    ensures Units(b, at, |first| + |second|) == first + second
  {
    UnitsSplit(b, at, |first|, |second|);
  }

  lemma UnitsPrefix(b: seq<Byte>, at: nat, all: WString, n: nat, m: nat)
    requires at + 2 * |all| <= |b| && Units(b, at, |all|) == all && n + m <= |all|
    ensures Units(b, at, n) == all[..n] && Units(b, at + 2 * n, m) == all[n..n + m]
  {
    UnitsSplit(b, at, n, |all| - n);
    UnitsSplit(b, at + 2 * n, m, |all| - n - m);
    UnitsLength(b, at, n);
    UnitsLength(b, at + 2 * n, m);
  }

  /** What is decoded is cut from both strings together, by the two lengths in the buffer. */
  lemma DecodeCarried(b: seq<Byte>, kind: Byte, n: Unit, m: Unit, first: WString, second: WString)
    requires Carries(b, kind, n, m, first, second) && n + m <= |first| + |second|
    ensures Readable(b)
    ensures Decode(b) == Event(kind != 0, (first + second)[..n], (first + second)[n..n + m])
  {
    UnitsOfBoth(b, PAYLOAD, first, second);
    UnitsPrefix(b, PAYLOAD, first + second, n, m);
  }

  lemma {:induction false} CutAtMost(n: nat)
    ensures Cut(n) <= n && (Cut(n) == n <==> n <= 65535)
  {
    if n > 65535 { CutAtMost(n - 0x1_0000); }
  }

  /** What the service decodes from a buffer that carries an event, whatever follows: the lengths
      are those of the strings modulo 2^16. */
  lemma DecodeEncoded(kind: Byte, image: WString, path: WString, b: seq<Byte>)
    requires CarriesEvent(b, kind, image, path)
    ensures Readable(b) && Cut(|image|) + Cut(|path|) <= |NulPadded(image)| + |NulPadded(path)|
    ensures var all, n, m := NulPadded(image) + NulPadded(path), Cut(|image|), Cut(|path|);
            Decode(b) == Event(kind != 0, all[..n], all[n..n + m])
  {
    CutAtMost(|image|);
    CutAtMost(|path|);
    NulPaddedLength(image);
    NulPaddedLength(path);
    DecodeCarried(b, kind, Cut(|image|), Cut(|path|), NulPadded(image), NulPadded(path));
  }

  lemma Halves(a: WString, b: WString)
    ensures (a + b)[..|a|] == a && (a + b)[|a|..|a| + |b|] == b
  {
  }

  /** With lengths that fit 16 bits, each string comes back with its length, padded with NULs
      from its first NUL. */
  lemma RoundTripPadded(kind: Byte, image: WString, path: WString, b: seq<Byte>)
    requires |image| <= 65535 && |path| <= 65535 && CarriesEvent(b, kind, image, path)
    ensures Readable(b) && Decode(b) == Event(kind != 0, NulPadded(image), NulPadded(path))
  {
    DecodeEncoded(kind, image, path, b);
    CutAtMost(|image|);
    CutAtMost(|path|);
    NulPaddedLength(image);
    NulPaddedLength(path);
    Halves(NulPadded(image), NulPadded(path));
  }

  /** The strings come back with their lengths exactly when both lengths fit 16 bits. */
  lemma LengthsComeBackIff(kind: Byte, image: WString, path: WString, b: seq<Byte>)
    requires CarriesEvent(b, kind, image, path)
    ensures Readable(b)
    ensures |Decode(b).image| == |image| && |Decode(b).path| == |path| <==> |image| <= 65535 && |path| <= 65535
  {
    DecodeEncoded(kind, image, path, b);
    CutAtMost(|image|);
    CutAtMost(|path|);
  }

  /** An event comes back unchanged exactly when both lengths fit 16 bits and nothing follows a
      NUL in either string. */
  lemma RoundTripIff(kind: Byte, image: WString, path: WString, b: seq<Byte>)
    requires CarriesEvent(b, kind, image, path)
    ensures Readable(b)
    ensures Decode(b) == Event(kind != 0, image, path)
            <==> |image| <= 65535 && |path| <= 65535 && NothingAfterNul(image) && NothingAfterNul(path)
  {
    LengthsComeBackIff(kind, image, path, b);
    NulPaddedIff(image);
    NulPaddedIff(path);
    if |image| <= 65535 && |path| <= 65535 {
      RoundTripPadded(kind, image, path, b);
    }
  }

  // ---- through the reader's buffer

  /** The driver has copied the message, without its header, over the start of the buffer. */
  predicate Received(b: seq<Byte>, stale: seq<Byte>, info: seq<Byte>) {
    |info| <= |b| == |stale| && info <= b && b[|info|..] == stale[|info|..]
  }

  /** A built message fits the service's buffer exactly when both strings together have at most
      2045 units. */
  lemma FitsIff(kind: Byte, image: WString, path: WString, last: Byte)
    ensures |Encode(kind, image, path) + [last]| == MessageSize(image, path)
    ensures MessageSize(image, path) <= MAX_MSG_SIZE <==> |image| + |path| <= 2045
  {
    EncodeLength(kind, image, path);
  }

  lemma Receive(stale: seq<Byte>, info: seq<Byte>) returns (b: seq<Byte>)
    requires |info| <= |stale|
    ensures Received(b, stale, info)
  {
    b := info + stale[|info|..];
  }

  /** The service's buffer can receive the message of every event of at most 2045 units, and starts with
      the encoded event then, stale bytes and the unwritten last byte of the message notwithstanding. */
  lemma EventIsReceived(kind: Byte, image: WString, path: WString, last: Byte, stale: seq<Byte>)
    returns (b: seq<Byte>)
    requires |stale| == MAX_MSG_SIZE && |image| + |path| <= 2045
    ensures Received(b, stale, Encode(kind, image, path) + [last])
    ensures |b| == MAX_MSG_SIZE && Encode(kind, image, path) <= b
  {
    var e := Encode(kind, image, path);
    FitsIff(kind, image, path, last);
    b := Receive(stale, e + [last]);
    assert (e + [last])[..|e|] == e && b[..|e| + 1] == e + [last];
  }

  /** What the service decodes from its buffer: the event, if and only if nothing follows a NUL. */
  lemma ThroughTheBuffer(kind: Byte, image: WString, path: WString, b: seq<Byte>)
    requires |b| == MAX_MSG_SIZE && CarriesEvent(b, kind, image, path)
    ensures |image| + |path| <= 2045 && Readable(b)
    ensures Decode(b) == Event(kind != 0, NulPadded(image), NulPadded(path))
    ensures Decode(b) == Event(kind != 0, image, path) <==> NothingAfterNul(image) && NothingAfterNul(path)
  {
    NulPaddedLength(image);
    NulPaddedLength(path);
    RoundTripPadded(kind, image, path, b);
    RoundTripIff(kind, image, path, b);
  }

  lemma PadsAfterNul()
    ensures NulPadded([0, 1]) == [0, 0] && NulPadded([]) == []
  {
  }

  /** An image with a unit after a NUL comes back without it. */
  lemma EventDoesNotComeBack() returns (image: WString, path: WString, b: seq<Byte>)
    ensures image == [0, 1] && path == [] && b == Encode(0, image, path)
    ensures Readable(b) && Decode(b) == Event(false, [0, 0], []) != Event(false, image, path)
  {
    image, path := [0, 1], [];
    PadsAfterNul();
    b := Encode(0, image, path);
    EncodedIff(0, image, path, b);
    RoundTripPadded(0, image, path, b);
  }
}
