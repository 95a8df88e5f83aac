/** base32Encode and base32Decode of `src/modules/auth/totp.util.ts`, proved to be the encoding of
    section 6 of RFC 4648 without padding. */
module Base32 {
  import opened Words
  import opened Bits
  import opened Text

  type Byte = x: nat | x < 256

  const ALPHABET: string := "ABCDEFGHIJKLMNOPQRSTUVWXYZ234567"

  // ----- specification -------------------------------------------------------

  /** `s.indexOf(c)`, searching from position `i`. */
  function IndexFrom(s: string, c: char, i: nat): int
    requires i <= |s|
    decreases |s| - i
  {
    if i == |s| then -1 else if s[i] == c then i else IndexFrom(s, c, i + 1)
  }

  function IndexOf(c: char): int {
    IndexFrom(ALPHABET, c, 0)
  }

  predicate Are5Bit(vs: seq<nat>) {
    forall v :: v in vs ==> v < 32
  }

  function Characters(vs: seq<nat>): (s: string)
    requires Are5Bit(vs)
    ensures |s| == |vs|
  {
    seq(|vs|, i requires 0 <= i < |vs| => assert vs[i] in vs; ALPHABET[vs[i]])
  }

  /** The bit string of a byte string. */
  function BytesBits(b: seq<Byte>): (s: seq<bool>)
    ensures |s| == 8 * |b|
  {
    Unchunk(8, b)
  }

  /** Right-padding with zero bits to a whole number of 5-bit groups. */
  function PadTo5(s: seq<bool>): (r: seq<bool>)
    ensures |r| % 5 == 0 && s <= r
  {
    s + Zeros((5 - |s| % 5) % 5)
  }

  function Groups(s: seq<bool>): (vs: seq<nat>)
    ensures Are5Bit(vs) && |vs| == |s| / 5
  {
    ChunksBound(5, s);
    Pow2Values();
    Chunks(5, s)
  }

  function Encoded(b: seq<Byte>): string {
    Characters(Groups(PadTo5(BytesBits(b))))
  }

  lemma {:induction false} IndexFromSpec(s: string, c: char, i: nat)
    requires i <= |s|
    ensures var k := IndexFrom(s, c, i);
            if k == -1 then c !in s[i..] else i <= k < |s| && s[k] == c && c !in s[i..k]
    decreases |s| - i
  {
    if i == |s| || s[i] == c {
    } else {
      IndexFromSpec(s, c, i + 1);
      assert s[i..] == [s[i]] + s[i + 1..];
      var k := IndexFrom(s, c, i + 1);
      if k != -1 {
        assert s[i..k] == [s[i]] + s[i + 1..k];
      }
    }
  }

  lemma {:induction false} IndexBound(c: char)
    ensures -1 <= IndexOf(c) < 32
    ensures IndexOf(c) >= 0 ==> ALPHABET[IndexOf(c)] == c
    ensures IndexOf(c) == -1 <==> c !in ALPHABET
  {
    IndexFromSpec(ALPHABET, c, 0);
    assert ALPHABET[0..] == ALPHABET;
  }

  /** The alphabet positions of the characters of a text, leaving out those outside the alphabet. */
  function Positions(s: string): (vs: seq<nat>)
    ensures Are5Bit(vs)
  {
    if s == [] then []
    else
      IndexBound(s[0]);
      if IndexOf(s[0]) == -1 then Positions(s[1..]) else [IndexOf(s[0])] + Positions(s[1..])
  }

  /** The alphabet positions named by a text in whatever case. */
  function Indices(s: string): (vs: seq<nat>)
    ensures Are5Bit(vs)
  {
    Positions(UpperCase(s))
  }

  function BitsBytes(s: seq<bool>): (b: seq<Byte>)
    ensures |b| == |s| / 8
  {
    ChunksBound(8, s);
    Pow2Values();
    assert forall i :: 0 <= i < |Chunks(8, s)| ==> Chunks(8, s)[i] in Chunks(8, s);
    Chunks(8, s)
  }

  function Decoded(s: string): seq<Byte> {
    BitsBytes(Unchunk(5, Indices(s)))
  }

  // ----- the alphabet --------------------------------------------------------

  lemma {:induction false} AlphabetLow(i: nat)
    requires i < 16
    ensures ALPHABET[i] as int == 65 + i
  {
    var a := ALPHABET;
    assert a[0] == 'A' && a[1] == 'B' && a[2] == 'C' && a[3] == 'D' && a[4] == 'E' && a[5] == 'F';
    assert a[6] == 'G' && a[7] == 'H' && a[8] == 'I' && a[9] == 'J' && a[10] == 'K' && a[11] == 'L';
    assert a[12] == 'M' && a[13] == 'N' && a[14] == 'O' && a[15] == 'P';
  }

  lemma {:induction false} AlphabetHigh(i: nat)
    requires 16 <= i < 32
    ensures ALPHABET[i] as int == if i < 26 then 65 + i else 24 + i
  {
    var a := ALPHABET;
    assert a[16] == 'Q' && a[17] == 'R' && a[18] == 'S' && a[19] == 'T' && a[20] == 'U' && a[21] == 'V';
    assert a[22] == 'W' && a[23] == 'X' && a[24] == 'Y' && a[25] == 'Z' && a[26] == '2' && a[27] == '3';
    assert a[28] == '4' && a[29] == '5' && a[30] == '6' && a[31] == '7';
  }

  lemma {:induction false} AlphabetAt(i: nat)
    requires i < 32
    ensures ALPHABET[i] as int == if i < 26 then 65 + i else 24 + i
  {
    if i < 16 {
      AlphabetLow(i);
    } else {
      AlphabetHigh(i);
    }
  }

  /** The alphabet is listed without repetition, so looking a character up inverts indexing. */
  lemma {:induction false} IndexOfAlphabet(v: nat)
    requires v < 32
    ensures IndexOf(ALPHABET[v]) == v
  {
    AlphabetAt(v);
    var c := ALPHABET[v];
    IndexBound(c);
    assert c in ALPHABET;
    AlphabetAt(IndexOf(c));
  }

  lemma {:induction false} PositionsConcat(s: string, t: string)
    ensures Positions(s + t) == Positions(s) + Positions(t)
  {
    hide IndexOf;
    if s == [] {
      assert s + t == t;
    } else {
      assert (s + t)[1..] == s[1..] + t;
      PositionsConcat(s[1..], t);
    }
  }

  lemma {:induction false} IndicesConcat(s: string, t: string)
    ensures Indices(s + t) == Indices(s) + Indices(t)
  {
    UpperCaseConcat(s, t);
    PositionsConcat(UpperCase(s), UpperCase(t));
    hide Positions, UpperCase;
  }

  /** A text of upper-case alphabet characters only. */
  predicate Clean(s: string) {
    forall c :: c in s ==> c in ALPHABET
  }

  lemma {:induction false} CleanIndex(c: char)
    requires c in ALPHABET
    ensures UpperText(c) == [c] && 0 <= IndexOf(c) < 32 && ALPHABET[IndexOf(c)] == c
  {
    IndexBound(c);
    AlphabetAt(IndexOf(c));
  }

  lemma {:induction false} CleanUpper(s: string)
    requires Clean(s)
    ensures UpperCase(s) == s
  {
    hide UpperText;
    if s == [] {
    } else {
      assert s[0] in s;
      assert forall c :: c in s[1..] ==> c in s;
      CleanIndex(s[0]);
      CleanUpper(s[1..]);
    }
  }

  lemma {:induction false} CharactersCons(v: nat, vs: seq<nat>)
    requires v < 32 && Are5Bit(vs)
    ensures Are5Bit([v] + vs) && Characters([v] + vs) == [ALPHABET[v]] + Characters(vs)
  {
    assert forall u :: u in [v] + vs ==> u == v || u in vs;
  }

  lemma {:induction false} PositionsOfCharacters(vs: seq<nat>)
    requires Are5Bit(vs)
    ensures Positions(Characters(vs)) == vs
  {
    hide IndexOf;
    if vs == [] {
    } else {
      assert vs[0] in vs;
      assert forall v :: v in vs[1..] ==> v in vs;
      IndexOfAlphabet(vs[0]);
      assert Characters(vs)[1..] == Characters(vs[1..]);
      PositionsOfCharacters(vs[1..]);
    }
  }

  lemma {:induction false} IndicesOfCharacters(vs: seq<nat>)
    requires Are5Bit(vs)
    ensures Indices(Characters(vs)) == vs
  {
    PositionsOfCharacters(vs);
    hide Positions, UpperCase;
    forall c | c in Characters(vs)
      ensures c in ALPHABET
    {
      var i :| 0 <= i < |vs| && Characters(vs)[i] == c;
      assert vs[i] in vs;
    }
    CleanUpper(Characters(vs));
  }

  lemma {:induction false} PositionsFirst(s: string)
    requires s != [] && IndexOf(s[0]) >= 0
    ensures Positions(s) == [IndexOf(s[0])] + Positions(s[1..])
  {
    hide IndexOf;
  }

  lemma {:induction false} CharactersOfPositions(s: string)
    requires Clean(s)
    ensures |Positions(s)| == |s| && Characters(Positions(s)) == s
  {
    hide IndexOf, Characters, UpperText;
    if s == [] {
      assert |Characters([])| == 0;
    } else {
      hide Positions;
      assert s[0] in s;
      assert forall c :: c in s[1..] ==> c in s;
      CleanIndex(s[0]);
      PositionsFirst(s);
      CharactersOfPositions(s[1..]);
      CharactersCons(IndexOf(s[0]), Positions(s[1..]));
      assert s == [s[0]] + s[1..];
    }
  }

  lemma {:induction false} CharactersOfIndices(s: string)
    requires Clean(s)
    ensures |Indices(s)| == |s| && Characters(Indices(s)) == s
  {
    CleanUpper(s);
    CharactersOfPositions(s);
    hide Positions, UpperCase, Characters;
  }

  // ----- the encoder ---------------------------------------------------------

  lemma {:induction false} GroupExists(n: nat, j: nat, length: nat)
    requires 0 < n && length >= n * j + n
    ensures j < length / n
  {
    MulSplit(j, 1, n);
    DivMono((j + 1) * n, length, n);
    DivModUnique((j + 1) * n, n, j + 1, 0);
  }

  lemma {:induction false} GroupValue(s: seq<bool>, n: nat, m: nat, j: nat, shift: nat, p: nat)
    requires 0 < n && m == Pow2(n) && p == n * j && |s| == p + n + shift
    ensures j < |s| / n && (Value(s) / Pow2(shift)) % m == Chunks(n, s)[j]
  {
    SliceValue(s, p, p + n);
    GroupExists(n, j, |s|);
    ChunkAt(n, s, j);
  }

  /** What one `(value >>> shift) & mask` reads: the j-th group of the bit string so far. */
  lemma {:induction false} ReadGroup(s: seq<bool>, n: nat, m: nat, j: nat, shift: nat)
    requires 0 < n && n + shift < 32 && m == Pow2(n) && |s| == n * j + n + shift
    ensures j < |s| / n
    ensures And(ShrU(ToInt32(Value(s)), shift), m - 1) == Chunks(n, s)[j]
  {
    ShiftOut(Value(s), shift, Pow2(shift), n, m);
    GroupValue(s, n, m, j, shift, n * j);
  }

  /** Shifting in the bits of one unit appends them to the bit string. */
  lemma {:induction false} WriteUnit(n: nat, m: nat, us: seq<nat>, u: nat)
    requires 0 < n < 32 && m == Pow2(n) && u < m
    ensures Unchunk(n, us + [u]) == Unchunk(n, us) + BitsOf(u, n)
    ensures Or(Shl(ToInt32(Value(Unchunk(n, us))), n), u) == ToInt32(Value(Unchunk(n, us + [u])))
  {
    hide *;
    UnchunkAppend(n, us, u);
    ValueConcat(Unchunk(n, us), BitsOf(u, n));
    ValueBitsOf(u, n);
    ShiftIn(Value(Unchunk(n, us)), n, m, u);
  }

  lemma {:induction false} CharactersAppend(vs: seq<nat>, v: nat)
    requires Are5Bit(vs) && v < 32
    ensures Are5Bit(vs + [v])
    ensures Characters(vs + [v]) == Characters(vs) + [ALPHABET[v]]
  {
    assert forall u :: u in vs + [v] ==> u in vs || u == v;
  }

  /** The encoder has read the bit string `s`: the accumulator, which is never masked, is the 32-bit
      image of all of it, and `output` holds its first groups, all but the last `bits` bits. */
  ghost predicate Encoding(value: int, bits: int, output: string, s: seq<bool>) {
    && 0 <= bits && bits + 5 * |output| == |s|
    && value == ToInt32(Value(s))
    && output == Characters(Groups(s))[..|output|]
  }

  lemma {:induction false} EncoderReads(value: int, bits: int, output: string, b: seq<Byte>, byte: Byte)
    requires Encoding(value, bits, output, BytesBits(b))
    ensures Encoding(Or(Shl(value, 8), byte), bits + 8, output, BytesBits(b + [byte]))
  {
    hide Or, Shl, ToInt32, Value, Unchunk, BitsOf, Chunks;
    var s, t := BytesBits(b), BitsOf(byte, 8);
    Pow2Values();
    WriteUnit(8, 256, b, byte);
    ChunksPrefix(5, s, t);
    forall j | 0 <= j < |output|
      ensures output[j] == Characters(Groups(s + t))[j]
    {
      assert Groups(s + t)[j] == Groups(s + t)[..|s| / 5][j];
    }
  }

  lemma {:induction false} EncoderExtends(value: int, bits: int, output: string, s: seq<bool>, v: int)
    requires Encoding(value, bits, output, s) && 5 <= bits
    requires |output| < |s| / 5 && v == Chunks(5, s)[|output|]
    ensures 0 <= v < 32 && Encoding(value, bits - 5, output + [ALPHABET[v]], s)
  {
    assert Groups(s)[|output|] in Groups(s);
    var t := Characters(Groups(s));
    assert t[..|output| + 1] == t[..|output|] + [t[|output|]];
  }

  lemma {:induction false} EncoderEmits(value: int, bits: int, output: string, s: seq<bool>, v: int)
    requires Encoding(value, bits, output, s) && 5 <= bits <= 12
    requires v == And(ShrU(value, bits - 5), 31)
    ensures 0 <= v < 32 && Encoding(value, bits - 5, output + [ALPHABET[v]], s)
  {
    Pow2Values();
    ReadGroup(s, 5, 32, |output|, bits - 5);
    EncoderExtends(value, bits, output, s, v);
  }

  /** The last, zero-padded group. */
  lemma {:induction false} PaddedValue(s: seq<bool>, z: nat)
    ensures Value(s + Zeros(z)) == Value(s) * Pow2(z)
  {
    ValueConcat(s, Zeros(z));
    ValueZeros(z);
  }

  lemma {:induction false} PaddedTail(s: seq<bool>, z: nat)
    requires 0 < z < 5 && |s| % 5 == 5 - z
    ensures Value(s + Zeros(z)) % 32 == Value((s + Zeros(z))[|s| - |s| % 5..])
  {
    Pow2Values();
    TailValue(s + Zeros(z), 5);
  }

  lemma {:induction false} PaddedGroup(s: seq<bool>, z: nat, v: int)
    requires 0 < z < 5 && |s| % 5 == 5 - z
    requires v == And(Shl(ToInt32(Value(s)), z), 31)
    ensures v == Value((s + Zeros(z))[|s| - |s| % 5..])
  {
    assert Pow2(5) == 32;
    ShiftLeftMask(Value(s), z, Pow2(z), 5, 32);
    PaddedValue(s, z);
    PaddedTail(s, z);
  }

  lemma {:induction false} LastChunk(s: seq<bool>, z: nat)
    requires 0 < z < 5 && |s| % 5 == 5 - z
    ensures Chunks(5, s + Zeros(z)) == Chunks(5, s) + [Value((s + Zeros(z))[|s| - |s| % 5..])]
  {
    var t := s + Zeros(z);
    var j := |s| / 5;
    assert |t| / 5 == j + 1 && |t| == 5 * j + 5;
    ChunksPrefix(5, s, Zeros(z));
    ChunkAt(5, t, j);
    var c := Chunks(5, t);
    assert c == c[..j] + [c[j]];
    assert t[5 * j..5 * j + 5] == t[|s| - |s| % 5..];
  }

  lemma {:induction false} LastGroup(s: seq<bool>, z: nat, v: int)
    requires 0 < z < 5 && |s| % 5 == 5 - z
    requires v == Value((s + Zeros(z))[|s| - |s| % 5..])
    ensures 0 <= v < 32 && Groups(PadTo5(s)) == Groups(s) + [v]
  {
    LastChunk(s, z);
    assert PadTo5(s) == s + Zeros(z);
    var g := Groups(PadTo5(s));
    assert g[|g| - 1] in g;
  }

  lemma {:induction false} EncoderFinishes(value: int, bits: int, output: string, s: seq<bool>, v: int)
    requires Encoding(value, bits, output, s) && 0 < bits < 5
    requires v == And(Shl(value, 5 - bits), 31)
    ensures 0 <= v < 32 && output + [ALPHABET[v]] == Characters(Groups(PadTo5(s)))
  {
    hide And, Shl;
    PaddedGroup(s, 5 - bits, v);
    LastGroup(s, 5 - bits, v);
    CharactersAppend(Groups(s), v);
  }

  lemma {:induction false} EncodingStarts()
    ensures Encoding(0, 0, "", BytesBits([]))
  {
    assert Value(BytesBits([])) == 0;
  }

  lemma {:induction false} EncodingWhole(value: int, output: string, s: seq<bool>)
    requires Encoding(value, 0, output, s)
    ensures output == Characters(Groups(PadTo5(s)))
  {
    assert PadTo5(s) == s;
  }

  method Base32Encode(buffer: seq<Byte>) returns (output: string)
    ensures output == Encoded(buffer)
  {
    hide Or, Shl, And, ShrU, Encoding, BytesBits, Groups, PadTo5, Characters;
    EncodingStarts();
    assert buffer[..0] == [];
    var bits, value: int := 0, 0;
    output := "";
    for i := 0 to |buffer|
      invariant 0 <= bits < 5
      invariant Encoding(value, bits, output, BytesBits(buffer[..i]))
    {
      EncoderReads(value, bits, output, buffer[..i], buffer[i]);
      assert buffer[..i + 1] == buffer[..i] + [buffer[i]];
      value := Or(Shl(value, 8), buffer[i]);
      bits := bits + 8;
      while bits >= 5
        invariant 0 <= bits <= 12
        invariant Encoding(value, bits, output, BytesBits(buffer[..i + 1]))
      {
        var v := And(ShrU(value, bits - 5), 31);
        EncoderEmits(value, bits, output, BytesBits(buffer[..i + 1]), v);
        output := output + [ALPHABET[v]];
        bits := bits - 5;
      }
    }
    assert buffer[..|buffer|] == buffer;
    if bits > 0 {
      var v := And(Shl(value, 5 - bits), 31);
      EncoderFinishes(value, bits, output, BytesBits(buffer), v);
      output := output + [ALPHABET[v]];
    } else {
      EncodingWhole(value, output, BytesBits(buffer));
    }
  }

  // ----- the decoder ---------------------------------------------------------

  /** `input.replace(/[=\s]/g, '')` */
  function StripPadding(s: string): string {
    if s == [] then []
    else if s[0] == '=' || IsSpace(s[0]) then StripPadding(s[1..])
    else [s[0]] + StripPadding(s[1..])
  }

  lemma {:induction false} PaddingIndex(c: char)
    requires c == '=' || IsSpace(c)
    ensures UpperText(c) == [c] && IndexOf(c) == -1
  {
    hide IndexOf;
    IndexBound(c);
    if IndexOf(c) >= 0 {
      AlphabetAt(IndexOf(c));
    }
  }

  lemma {:induction false} SinglePosition(c: char)
    ensures -1 <= IndexOf(c) < 32 && Positions([c]) == if IndexOf(c) == -1 then [] else [IndexOf(c)]
  {
    hide IndexOf;
    IndexBound(c);
    assert [c][1..] == [];
  }

  lemma {:induction false} IndicesStripped(s: string)
    ensures Indices(StripPadding(s)) == Indices(s)
  {
    hide IndexOf, IsSpace, Positions;
    if s == [] {
    } else {
      IndicesStripped(s[1..]);
      assert s == [s[0]] + s[1..];
      IndicesConcat([s[0]], s[1..]);
      if s[0] == '=' || IsSpace(s[0]) {
        PaddingIndex(s[0]);
        SinglePosition(s[0]);
        assert UpperCase([s[0]]) == [s[0]];
      } else {
        IndicesConcat([s[0]], StripPadding(s[1..]));
      }
    }
  }

  /** The decoder has read the indices `vs`: as for the encoder, with 8-bit groups. */
  ghost predicate Decoding(value: int, bits: int, bytes: seq<Byte>, vs: seq<nat>) {
    && 0 <= bits && bits + 8 * |bytes| == 5 * |vs|
    && value == ToInt32(Value(Unchunk(5, vs)))
    && bytes == BitsBytes(Unchunk(5, vs))[..|bytes|]
  }

  lemma {:induction false} DecoderReads(value: int, bits: int, bytes: seq<Byte>, vs: seq<nat>, v: nat)
    requires Decoding(value, bits, bytes, vs) && v < 32
    ensures Decoding(Or(Shl(value, 5), v), bits + 5, bytes, vs + [v])
  {
    var s, t := Unchunk(5, vs), BitsOf(v, 5);
    Pow2Values();
    WriteUnit(5, 32, vs, v);
    ChunksPrefix(8, s, t);
    assert BitsBytes(s + t)[..|bytes|] == BitsBytes(s + t)[..|s| / 8][..|bytes|];
  }

  lemma {:induction false} DecoderExtends(value: int, bits: int, bytes: seq<Byte>, vs: seq<nat>, v: int)
    requires Decoding(value, bits, bytes, vs) && 8 <= bits
    requires |bytes| < |Unchunk(5, vs)| / 8 && v == Chunks(8, Unchunk(5, vs))[|bytes|]
    ensures 0 <= v < 256 && Decoding(value, bits - 8, bytes + [v], vs)
  {
    var t := BitsBytes(Unchunk(5, vs));
    assert v == t[|bytes|];
    assert t[..|bytes| + 1] == t[..|bytes|] + [t[|bytes|]];
  }

  lemma {:induction false} DecoderEmits(value: int, bits: int, bytes: seq<Byte>, vs: seq<nat>, v: int)
    requires Decoding(value, bits, bytes, vs) && 8 <= bits <= 12
    requires v == And(ShrU(value, bits - 8), 0xff)
    ensures 0 <= v < 256 && Decoding(value, bits - 8, bytes + [v], vs)
  {
    Pow2Values();
    ReadGroup(Unchunk(5, vs), 8, 256, |bytes|, bits - 8);
    DecoderExtends(value, bits, bytes, vs, v);
  }

  lemma {:induction false} DecodingStarts()
    ensures Decoding(0, 0, [], Positions(""))
  {
    assert Value(Unchunk(5, [])) == 0;
  }

  lemma {:induction false} DecodingEnds(value: int, bits: int, bytes: seq<Byte>, vs: seq<nat>)
    requires Decoding(value, bits, bytes, vs) && bits < 8
    ensures bytes == BitsBytes(Unchunk(5, vs))
  {
    hide BitsBytes, Unchunk, Value;
    assert |BitsBytes(Unchunk(5, vs))| == |Unchunk(5, vs)| / 8 == |bytes|;
  }

  lemma {:induction false} NextPosition(clean: string, k: nat)
    requires k < |clean|
    ensures var i := IndexOf(clean[k]);
            && -1 <= i < 32
            && Positions(clean[..k + 1]) == if i == -1 then Positions(clean[..k]) else Positions(clean[..k]) + [i]
  {
    SinglePosition(clean[k]);
    hide IndexOf, Positions;
    assert clean[..k + 1] == clean[..k] + [clean[k]];
    PositionsConcat(clean[..k], [clean[k]]);
  }

  method Base32Decode(input: string) returns (bytes: seq<Byte>)
    ensures bytes == Decoded(input)
  {
    hide Or, Shl, And, ShrU, Decoding, BitsBytes, Unchunk, Positions, IndexOf, UpperCase, StripPadding;
    IndicesStripped(input);
    DecodingStarts();
    var clean := UpperCase(StripPadding(input));
    assert clean[..0] == "";
    var bits, value: int := 0, 0;
    bytes := [];
    for k := 0 to |clean|
      invariant 0 <= bits < 8
      invariant Decoding(value, bits, bytes, Positions(clean[..k]))
    {
      var idx := IndexOf(clean[k]);
      NextPosition(clean, k);
      if idx == -1 {
        continue;
      }
      DecoderReads(value, bits, bytes, Positions(clean[..k]), idx);
      value := Or(Shl(value, 5), idx);
      bits := bits + 5;
      if bits >= 8 {
        var v := And(ShrU(value, bits - 8), 0xff);
        DecoderEmits(value, bits, bytes, Positions(clean[..k + 1]), v);
        bytes := bytes + [v];
        bits := bits - 8;
      }
    }
    assert clean[..|clean|] == clean;
    DecodingEnds(value, bits, bytes, Positions(clean));
  }

  // ----- properties ----------------------------------------------------------

  lemma {:induction false} CharacterNames(t: seq<bool>, i: nat)
    requires i < |t| / 5
    ensures 5 * i + 5 <= |t|
    ensures IndexOf(Characters(Groups(t))[i]) == Value(t[5 * i..5 * i + 5])
  {
    hide IndexOf, Value;
    ChunkAt(5, t, i);
    assert Groups(t)[i] in Groups(t);
    IndexOfAlphabet(Groups(t)[i]);
  }

  /** The bit string of a byte string has the bits of byte `j`, most significant first, at place 8 j. */
  lemma {:induction false} BytesBitsAt(b: seq<Byte>, j: nat)
    requires j < |b|
    ensures Value(BytesBits(b)[8 * j..8 * j + 8]) == b[j]
  {
    Pow2Values();
    ChunksUnchunk(8, b);
    ChunkAt(8, BytesBits(b), j);
    hide Value, Chunks, Unchunk;
  }

  /** Section 6 of RFC 4648: ceil(8n/5) characters, the i-th naming the i-th 5-bit slice of the
      byte string's bits, zero bits standing in past the end. */
  lemma {:induction false} EncodedSlices(b: seq<Byte>)
    ensures |Encoded(b)| == (8 * |b| + 4) / 5
    ensures var t := BytesBits(b) + seq((5 - 8 * |b| % 5) % 5, _ => false);
            forall i :: 0 <= i < |Encoded(b)| ==>
              5 * i + 5 <= |t| && IndexOf(Encoded(b)[i]) == Value(t[5 * i..5 * i + 5])
  {
    var t := PadTo5(BytesBits(b));
    assert t == BytesBits(b) + seq((5 - 8 * |b| % 5) % 5, _ => false);
    assert |t| == 8 * |b| + (5 - 8 * |b| % 5) % 5;
    hide PadTo5, BytesBits, IndexOf, Value, Groups, Characters;
    forall i | 0 <= i < |Encoded(b)|
      ensures 5 * i + 5 <= |t| && IndexOf(Encoded(b)[i]) == Value(t[5 * i..5 * i + 5])
    {
      CharacterNames(t, i);
    }
  }

  /** Decoding undoes encoding, for every byte string. */
  lemma {:induction false} RoundTrip(b: seq<Byte>)
    ensures Decoded(Encoded(b)) == b
  {
    var s := BytesBits(b);
    var t := PadTo5(s);
    IndicesOfCharacters(Groups(t));
    UnchunkChunks(5, t);
    assert Unchunk(5, Groups(t)) == t;
    ChunksPrefix(8, s, t[|s|..]);
    assert s + t[|s|..] == t;
    Pow2Values();
    ChunksUnchunk(8, b);
    assert BitsBytes(t) == BitsBytes(t)[..|b|] by {
      assert |t| / 8 == |b|;
    }
  }

  lemma {:induction false} SameUpperText(a: char, b: char)
    requires UpperChar(a) == UpperChar(b)
    ensures UpperText(a) == UpperText(b)
  {
  }

  lemma {:induction false} SameUpperCase(s: string, t: string)
    requires Upper(s) == Upper(t)
    ensures UpperCase(s) == UpperCase(t)
  {
    hide UpperText, UpperChar;
    if s == [] {
    } else {
      assert |s| == |Upper(s)| == |Upper(t)| == |t|;
      assert Upper(s)[0] == Upper(t)[0];
      SameUpperText(s[0], t[0]);
      assert Upper(s[1..]) == Upper(s)[1..] == Upper(t)[1..] == Upper(t[1..]);
      SameUpperCase(s[1..], t[1..]);
    }
  }

  /** The case of ASCII letters never changes what a text, ASCII or not, decodes to. */
  lemma {:induction false} DecodeIgnoresCase(s: string, t: string)
    requires Upper(s) == Upper(t)
    ensures Indices(s) == Indices(t) && Decoded(s) == Decoded(t)
  {
    SameUpperCase(s, t);
    hide UpperCase;
  }

  lemma {:induction false} UpperLower(s: string)
    ensures Upper(Lower(s)) == Upper(s)
  {
    forall i | 0 <= i < |s|
      ensures Upper(Lower(s))[i] == Upper(s)[i]
    {
      CaseExact(s[i]);
      CaseExact(LowerChar(s[i]));
    }
  }

  /** A secret typed in small letters decodes to the same key. */
  lemma {:induction false} LowerRoundTrip(b: seq<Byte>)
    ensures Decoded(Lower(Encoded(b))) == b
  {
    RoundTrip(b);
    UpperLower(Encoded(b));
    hide Encoded, Decoded, Upper, Lower;
    DecodeIgnoresCase(Lower(Encoded(b)), Encoded(b));
  }

  /** No capital of the character is in the alphabet. */
  predicate Foreign(c: char) {
    forall d :: d in UpperText(c) ==> d !in ALPHABET
  }

  lemma {:induction false} NoPositions(s: string)
    requires forall c :: c in s ==> c !in ALPHABET
    ensures Positions(s) == []
  {
    hide IndexOf;
    if s == [] {
    } else {
      assert s[0] in s;
      IndexBound(s[0]);
      assert forall c :: c in s[1..] ==> c in s;
      NoPositions(s[1..]);
    }
  }

  lemma {:induction false} NoIndices(junk: string)
    requires forall c :: c in junk ==> Foreign(c)
    ensures Indices(junk) == []
  {
    hide UpperText;
    if junk == [] {
    } else {
      assert junk[0] in junk;
      NoPositions(UpperText(junk[0]));
      assert forall c :: c in junk[1..] ==> c in junk;
      NoIndices(junk[1..]);
      PositionsConcat(UpperText(junk[0]), UpperCase(junk[1..]));
    }
  }

  lemma {:induction false} IndicesIgnoreJunk(s: string, junk: string, t: string)
    requires forall c :: c in junk ==> Foreign(c)
    ensures Indices(s + junk + t) == Indices(s + t)
  {
    hide Indices, Foreign;
    NoIndices(junk);
    IndicesConcat(s + junk, t);
    IndicesConcat(s, junk);
    IndicesConcat(s, t);
    assert Indices(s + junk) == Indices(s);
  }

  /** Inserting characters without a capital in the alphabet, anywhere, never changes the decoding. */
  lemma {:induction false} DecodeIgnoresJunk(s: string, junk: string, t: string)
    requires forall c :: c in junk ==> Foreign(c)
    ensures Decoded(s + junk + t) == Decoded(s + t)
  {
    IndicesIgnoreJunk(s, junk, t);
    hide Indices, Foreign;
  }

  /** The bits a text carries beyond its last whole byte. */
  function LeftoverBits(s: string): seq<bool> {
    var t := Unchunk(5, Indices(s));
    t[|t| - |t| % 8..]
  }

  lemma {:induction false} WholeBytes(t: seq<bool>)
    ensures BytesBits(BitsBytes(t)) == t[..|t| - |t| % 8]
  {
    hide Unchunk, Chunks;
    UnchunkChunks(8, t);
  }

  lemma {:induction false} GroupsMatch(p: seq<bool>, vs: seq<nat>)
    requires |p| % 5 == 0 && Are5Bit(vs)
    ensures Characters(Groups(p)) == Characters(vs) <==> p == Unchunk(5, vs)
  {
    IndicesOfCharacters(Groups(p));
    IndicesOfCharacters(vs);
    if Groups(p) == vs {
      UnchunkChunks(5, p);
      assert p[..|p|] == p;
    }
    Pow2Values();
    ChunksUnchunk(5, vs);
  }

  lemma {:induction false} PadMatches(u: seq<bool>, rest: seq<bool>)
    requires |u + rest| % 5 == 0 && |rest| < 8
    ensures PadTo5(u) == u + rest <==> |rest| < 5 && rest == Zeros(|rest|)
  {
    var k := (5 - |u| % 5) % 5;
    assert |rest| < 5 ==> k == |rest|;
    if PadTo5(u) == u + rest {
      assert rest == (u + rest)[|u|..] == Zeros(k);
    }
  }

  lemma {:induction false} ReEncodeSplit(vs: seq<nat>, u: seq<bool>, rest: seq<bool>)
    requires Are5Bit(vs) && Unchunk(5, vs) == u + rest && |rest| < 8
    requires BytesBits(BitsBytes(u + rest)) == u
    ensures Encoded(BitsBytes(u + rest)) == Characters(vs) <==> |rest| < 5 && rest == Zeros(|rest|)
  {
    hide Unchunk, BitsBytes, BytesBits, Characters, Groups, PadTo5, Zeros;
    PadMatches(u, rest);
    GroupsMatch(PadTo5(u), vs);
  }

  lemma {:induction false} ReEncodeIndices(vs: seq<nat>)
    requires Are5Bit(vs)
    ensures var t := Unchunk(5, vs);
            var rest := t[|t| - |t| % 8..];
            Encoded(BitsBytes(t)) == Characters(vs) <==> |rest| < 5 && rest == Zeros(|rest|)
  {
    hide Unchunk, BitsBytes, BytesBits, Characters, Encoded, Zeros;
    var t := Unchunk(5, vs);
    WholeBytes(t);
    var u, rest := t[..|t| - |t| % 8], t[|t| - |t| % 8..];
    assert t == u + rest;
    ReEncodeSplit(vs, u, rest);
  }

  /** Encoding undoes decoding exactly on canonical texts: fewer than 5 bits left over, all zero. */
  lemma {:induction false} ReEncode(s: string)
    requires Clean(s)
    ensures Encoded(Decoded(s)) == s
            <==> |LeftoverBits(s)| < 5 && LeftoverBits(s) == Zeros(|LeftoverBits(s)|)
  {
    CharactersOfIndices(s);
    ReEncodeIndices(Indices(s));
  }
}
