/**
 The base64 decoder of the compiled-in constants (crates/ltbox-core/src/obf.rs),
 against the encoding of section 4 of RFC 4648. Text and data are byte values; a
 panic of the source is `None`.
 */
module Base64 {
  import opened Arithmetic
  import opened Text
  import opened Wrappers

  // ---- The encoding of RFC 4648, section 4 ------------------------------------------------

  /** Table 1: The Base 64 Alphabet. */
  function Symbol(v: nat): (c: Byte)
    requires v < 64
    ensures !Ignored(c)
  {
    if v < 26 then 'A' as int + v
    else if v < 52 then 'a' as int + (v - 26)
    else if v < 62 then '0' as int + (v - 52)
    else if v == 62 then '+' as int
    else '/' as int
  }

  const CAPITALS: string := "ABCDEFGHIJKLM" + "NOPQRSTUVWXYZ"
  const SMALL_LETTERS: string := "abcdefghijklm" + "nopqrstuvwxyz"
  const NUMERALS: string := "0123456789"

  /** The table, written out. */
  lemma AlphabetIs(v: nat)
    requires v < 64
    ensures |CAPITALS| == |SMALL_LETTERS| == 26 && |NUMERALS| == 10
    ensures Symbol(v) ==
      (if v < 26 then CAPITALS[v] else if v < 52 then SMALL_LETTERS[v - 26] else if v < 62 then NUMERALS[v - 52]
       else "+/"[v - 62]) as int
  {
    if v < 26 {
      CapitalAt(v);
    } else if v < 52 {
      SmallLetterAt(v - 26);
    }
  }

  lemma CapitalAt(i: nat)
    requires i < 26
    ensures CAPITALS[i] as int == 'A' as int + i
  {
    if i < 13 {
      assert CAPITALS[i] == "ABCDEFGHIJKLM"[i];
    } else {
      assert CAPITALS[i] == "NOPQRSTUVWXYZ"[i - 13];
    }
  }

  lemma SmallLetterAt(i: nat)
    requires i < 26
    ensures SMALL_LETTERS[i] as int == 'a' as int + i
  {
    if i < 13 {
      assert SMALL_LETTERS[i] == "abcdefghijklm"[i];
    } else {
      assert SMALL_LETTERS[i] == "nopqrstuvwxyz"[i - 13];
    }
  }

  const PAD: Byte := '=' as int

  /** The symbols of the encoding: six bits at a time, the last group filled up with zero bits. */
  function Symbols(data: seq<Byte>): (s: seq<Byte>)
    requires IsBytes(data)
    ensures |s| == (|data| * 4 + 2) / 3
  {
    if |data| == 0 then []
    else if |data| == 1 then [Symbol(data[0] / 4), Symbol(data[0] % 4 * 16)]
    else if |data| == 2 then
      [Symbol(data[0] / 4), Symbol(data[0] % 4 * 16 + data[1] / 16), Symbol(data[1] % 16 * 4)]
    else
      [Symbol(data[0] / 4), Symbol(data[0] % 4 * 16 + data[1] / 16), Symbol(data[1] % 16 * 4 + data[2] / 64),
       Symbol(data[2] % 64)] + Symbols(data[3..])
  }

  /** The encoding: the symbols, padded to whole groups of four. */
  function Encode(data: seq<Byte>): seq<Byte>
    requires IsBytes(data)
  {
    Symbols(data) + seq(if |data| % 3 == 0 then 0 else 3 - |data| % 3, _ => PAD)
  }

  /** Three bytes are four symbols of six bits, the highest first; of one or two bytes the last symbols are left out. */
  lemma GroupIs(x: nat, y: nat, z: nat) returns (a: nat, b: nat, c: nat, d: nat)
    requires x < 256 && y < 256 && z < 256
    ensures a < 64 && b < 64 && c < 64 && d < 64
    ensures ((a * 64 + b) * 64 + c) * 64 + d == (x * 256 + y) * 256 + z
    ensures Encode([x, y, z]) == [Symbol(a), Symbol(b), Symbol(c), Symbol(d)]
    ensures z == 0 ==> Encode([x, y]) == [Symbol(a), Symbol(b), Symbol(c), PAD]
    ensures y == z == 0 ==> Encode([x]) == [Symbol(a), Symbol(b), PAD, PAD]
  {
    a, b, c, d := x / 4, x % 4 * 16 + y / 16, y % 16 * 4 + z / 64, z % 64;
    assert [x, y, z][3..] == [];
    hide Symbol;
  }

  /** The encodings of `f`, `fo` and `foo` from section 10 of RFC 4648. */
  lemma TestVectors()
    ensures Encode([0x66]) == Utf8("Zg==") && Encode([0x66, 0x6F]) == Utf8("Zm8=")
    ensures Encode([0x66, 0x6F, 0x6F]) == Utf8("Zm9v")
  {
    assert [0x66, 0x6F, 0x6F][3..] == [];
    Utf8OfAscii("Zg==");
    Utf8OfAscii("Zm8=");
    Utf8OfAscii("Zm9v");
  }

  // ---- The decoder ----------------------------------------------------------------------------

  /** Padding, and the bytes `is_ascii_whitespace` accepts. */
  predicate Ignored(c: Byte) {
    c == PAD || c == 0x20 || c == 0x09 || c == 0x0A || c == 0x0C || c == 0x0D
  }

  /** What may be put anywhere into the text. */
  lemma IgnoredAre(c: Byte)
    ensures Ignored(c) <==> c in {'=' as int, ' ' as int, '\t' as int, '\n' as int, '\r' as int, 0x0C}
  {
  }

  function Significant(text: seq<Byte>): seq<Byte> {
    if text == [] then []
    else Significant(text[..|text| - 1]) + (if Ignored(text[|text| - 1]) then [] else [text[|text| - 1]])
  }

  /** `sextet`: the place of a byte in the alphabet. */
  function Sextet(c: Byte): (v: Option<nat>)
    ensures v.Some? ==> v.value < 64
  {
    if 'A' as int <= c <= 'Z' as int then Some(c - 'A' as int)
    else if 'a' as int <= c <= 'z' as int then Some(c - 'a' as int + 26)
    else if '0' as int <= c <= '9' as int then Some(c - '0' as int + 52)
    else if c == '+' as int then Some(62)
    else if c == '/' as int then Some(63)
    else None
  }

  /** The bits of a chunk, six from each byte. */
  function Bits(chunk: seq<Byte>): Option<nat> {
    if chunk == [] then Some(0)
    else
      var high := Bits(chunk[..|chunk| - 1]);
      var low := Sextet(chunk[|chunk| - 1]);
      if high.None? || low.None? then None else Some(high.value * 64 + low.value)
  }

  /** The bytes of a chunk of two to four symbols. */
  function ChunkBytes(chunk: seq<Byte>): Option<seq<Byte>>
    requires 2 <= |chunk| <= 4
  {
    var bits := Bits(chunk);
    if bits.None? then None
    else
      var buf := if |chunk| == 2 then bits.value * 4096 else if |chunk| == 3 then bits.value * 64 else bits.value;
      Some([buf / 65536 % 256, buf / 256 % 256, buf % 256][..|chunk| - 1])
  }

  /** The bytes already decoded in front of the rest, unless the rest is malformed. */
  function Then(out: seq<Byte>, rest: Option<seq<Byte>>): Option<seq<Byte>> {
    if rest.None? then None else Some(out + rest.value)
  }

  function Decode(clean: seq<Byte>): Option<seq<Byte>> {
    if clean == [] then Some([])
    else if |clean| < 2 then None
    else
      var n := if |clean| < 4 then |clean| else 4;
      var first := ChunkBytes(clean[..n]);
      if first.None? then None else Then(first.value, Decode(clean[n..]))
  }

  /** `reveal`, up to the check that the bytes are UTF-8. */
  method Reveal(text: seq<Byte>) returns (r: Option<seq<Byte>>)
    ensures r == Decode(Significant(text))
  {
    var clean: seq<Byte> := [];
    for i := 0 to |text|
      invariant clean == Significant(text[..i])
    {
      assert text[..i + 1][..i] == text[..i];
      if !Ignored(text[i]) {
        clean := clean + [text[i]];
      }
    }
    assert text[..|text|] == text;
    var out: seq<Byte> := [];
    var at := 0;
    DecodeFromStart(clean);
    hide *;
    while at < |clean|
      invariant at <= |clean|
      invariant Decode(clean) == Then(out, Decode(clean[at..]))
    {
      var n := if |clean| - at < 4 then |clean| - at else 4;
      DecodeNext(clean, at, n);
      if n < 2 {
        ThenNone(out);
        return None;
      }
      var chunk := RevealChunk(clean[at..at + n]);
      if chunk.None? {
        ThenNone(out);
        return None;
      }
      ThenThen(out, chunk.value, Decode(clean[at + n..]));
      out := out + chunk.value;
      at := at + n;
    }
    DecodeAtEnd(clean, out);
    return Some(out);
  }

  /** One chunk of `reveal`: six bits from each symbol, shifted up to whole bytes. */
  method RevealChunk(chunk: seq<Byte>) returns (r: Option<seq<Byte>>)
    requires 2 <= |chunk| <= 4
    ensures r == ChunkBytes(chunk)
  {
    var n := |chunk|;
    var buf := 0;
    for k := 0 to n
      invariant Bits(chunk[..k]) == Some(buf)
    {
      assert chunk[..k + 1][..k] == chunk[..k];
      var v := Sextet(chunk[k]);
      if v.None? {
        BitsNeedSymbols(chunk, k);
        return None;
      }
      buf := buf * 64 + v.value;
    }
    assert chunk[..n] == chunk;
    buf := if n == 2 then buf * 4096 else if n == 3 then buf * 64 else buf;
    var bytes := [buf / 65536 % 256, buf / 256 % 256, buf % 256];
    return Some(bytes[..n - 1]);
  }

  lemma DecodeFromStart(clean: seq<Byte>)
    ensures Decode(clean) == Then([], Decode(clean[0..]))
  {
    hide Decode;
    assert clean[0..] == clean;
    assert Decode(clean).Some? ==> [] + Decode(clean).value == Decode(clean).value;
  }

  lemma DecodeAtEnd(clean: seq<Byte>, out: seq<Byte>)
    ensures Then(out, Decode(clean[|clean|..])) == Some(out)
  {
    assert out + [] == out;
  }

  lemma DecodeNext(clean: seq<Byte>, at: nat, n: nat)
    requires at < |clean| && n == if |clean| - at < 4 then |clean| - at else 4
    ensures Decode(clean[at..]) ==
      if n < 2 then None
      else if ChunkBytes(clean[at..at + n]).None? then None
      else Then(ChunkBytes(clean[at..at + n]).value, Decode(clean[at + n..]))
  {
    hide ChunkBytes, Then;
    assert clean[at..][..n] == clean[at..at + n] && clean[at..][n..] == clean[at + n..];
  }

  lemma ThenNone(out: seq<Byte>)
    ensures Then(out, None) == None
  {
  }

  lemma ThenThen(a: seq<Byte>, b: seq<Byte>, rest: Option<seq<Byte>>)
    ensures Then(a, Then(b, rest)) == Then(a + b, rest)
  {
    assert rest.Some? ==> a + (b + rest.value) == a + b + rest.value;
  }

  lemma {:induction false} BitsNeedSymbols(chunk: seq<Byte>, k: nat)
    requires k < |chunk| && Sextet(chunk[k]).None?
    ensures Bits(chunk).None?
  {
    hide Sextet;
    if k < |chunk| - 1 {
      BitsNeedSymbols(chunk[..|chunk| - 1], k);
    }
  }

  // ---- What is accepted, and how long the result is ---------------------------------------------

  predicate InAlphabet(clean: seq<Byte>) {
    forall i :: 0 <= i < |clean| ==> Sextet(clean[i]).Some?
  }

  lemma {:induction false} BitsDefined(chunk: seq<Byte>)
    ensures Bits(chunk).Some? <==> InAlphabet(chunk)
  {
    hide Sextet;
    if chunk != [] {
      var front := chunk[..|chunk| - 1];
      BitsDefined(front);
      assert chunk == front + [chunk[|chunk| - 1]];
    }
  }

  /** Three bytes for each whole group of four, and one less than its symbols for the last. */
  function DecodedLength(n: nat): nat {
    3 * (n / 4) + (if n % 4 == 0 then 0 else n % 4 - 1)
  }

  lemma DecodedLengthStep(n: nat)
    requires n >= 4
    ensures DecodedLength(n) == 3 + DecodedLength(n - 4) && n % 4 == (n - 4) % 4
  {
  }

  /** A text decodes exactly when its significant bytes are all in the alphabet and do not leave a single one over. */
  lemma {:induction false} DecodesExactly(clean: seq<Byte>)
    ensures Decode(clean).Some? <==> InAlphabet(clean) && |clean| % 4 != 1
    ensures Decode(clean).Some? ==> |Decode(clean).value| == DecodedLength(|clean|)
  {
    hide Sextet, ChunkBytes, InAlphabet;
    if |clean| >= 4 {
      DecodesExactly(clean[4..]);
      ChunkBytesDefined(clean[..4]);
      InAlphabetSplit(clean, 4);
      hide DecodedLength;
      DecodedLengthStep(|clean|);
    } else if |clean| >= 2 {
      assert clean[..|clean|] == clean && clean[|clean|..] == [];
      ChunkBytesDefined(clean);
    } else {
      assert clean == [] ==> InAlphabet(clean) by { InAlphabetSplit(clean, 0); AlphabetOfNothing(); }
    }
  }

  lemma AlphabetOfNothing()
    ensures InAlphabet([])
  {
  }

  lemma InAlphabetSplit(clean: seq<Byte>, n: nat)
    requires n <= |clean|
    ensures InAlphabet(clean) <==> InAlphabet(clean[..n]) && InAlphabet(clean[n..])
  {
    hide Sextet;
    assert clean == clean[..n] + clean[n..];
  }

  lemma ChunkBytesDefined(chunk: seq<Byte>)
    requires 2 <= |chunk| <= 4
    ensures ChunkBytes(chunk).Some? <==> InAlphabet(chunk)
    ensures ChunkBytes(chunk).Some? ==> |ChunkBytes(chunk).value| == |chunk| - 1
  {
    BitsDefined(chunk);
    hide Bits, InAlphabet;
  }

  // ---- Round trips -----------------------------------------------------------------------------------

  lemma SymbolRoundTrips(v: nat)
    requires v < 64
    ensures Sextet(Symbol(v)) == Some(v)
  {
  }

  lemma SextetIsInjective(c: Byte)
    requires Sextet(c).Some?
    ensures Symbol(Sextet(c).value) == c
  {
  }

  /** The bits of two to four symbols, as one sum. */
  lemma ChunkBits(chunk: seq<Byte>, a: nat, b: nat, c: nat, d: nat)
    requires 2 <= |chunk| <= 4 && Sextet(chunk[0]) == Some(a) && Sextet(chunk[1]) == Some(b)
    requires |chunk| > 2 ==> Sextet(chunk[2]) == Some(c)
    requires |chunk| > 3 ==> Sextet(chunk[3]) == Some(d)
    ensures Bits(chunk) == Some(
      if |chunk| == 2 then a * 64 + b else if |chunk| == 3 then a * 4096 + b * 64 + c
      else a * 262_144 + b * 4096 + c * 64 + d)
  {
    hide Sextet;
    assert Bits(chunk[..0]) == Some(0);
    assert chunk[..1][..0] == chunk[..0];
    assert Bits(chunk[..1]) == Some(a);
    assert chunk[..2][..1] == chunk[..1];
    assert Bits(chunk[..2]) == Some(a * 64 + b);
    if |chunk| == 2 {
      assert chunk[..2] == chunk;
    } else {
      assert chunk[..3][..2] == chunk[..2];
      assert Bits(chunk[..3]) == Some((a * 64 + b) * 64 + c);
      if |chunk| == 3 {
        assert chunk[..3] == chunk;
      }
    }
  }

  /** Three bytes out of twenty-four bits. */
  lemma SplitBuf(x: nat, y: nat, z: nat)
    requires x < 256 && y < 256 && z < 256
    ensures var buf := x * 65536 + y * 256 + z;
      buf / 65536 % 256 == x && buf / 256 % 256 == y && buf % 256 == z
  {
    var buf := x * 65536 + y * 256 + z;
    DivUnique(buf, 65536, x);
    DivUnique(buf, 256, x * 256 + y);
  }

  /** Twenty-four bits as four groups of six. */
  lemma Regroup(x: nat, y: nat, z: nat)
    requires x < 256 && y < 256 && z < 256
    ensures var a, b, c, d := x / 4, x % 4 * 16 + y / 16, y % 16 * 4 + z / 64, z % 64;
      && a < 64 && b < 64 && c < 64 && d < 64
      && a * 262_144 + b * 4096 + c * 64 + d == x * 65536 + y * 256 + z
  {
  }

  /** The symbols of up to three bytes, missing bytes counted as zero. */
  lemma SymbolsShort(data: seq<Byte>, x: nat, y: nat, z: nat)
    requires 1 <= |data| <= 3 && IsBytes(data)
    requires x == data[0] && y == (if |data| > 1 then data[1] else 0) && z == (if |data| > 2 then data[2] else 0)
    ensures var s := Symbols(data);
      && |s| == |data| + 1 && s[0] == Symbol(x / 4) && s[1] == Symbol(x % 4 * 16 + y / 16)
      && (|data| > 1 ==> s[2] == Symbol(y % 16 * 4 + z / 64))
      && (|data| > 2 ==> s[3] == Symbol(z % 64))
  {
    hide Symbol;
  }

  lemma ChunkOfBytes(data: seq<Byte>, chunk: seq<Byte>)
    requires 1 <= |data| <= 3 && IsBytes(data) && chunk == Symbols(data)
    ensures ChunkBytes(chunk) == Some(data)
  {
    hide Symbol, Symbols, ChunkBytes, Sextet;
    var x, y, z := data[0], if |data| > 1 then data[1] else 0, if |data| > 2 then data[2] else 0;
    SymbolsShort(data, x, y, z);
    Regroup(x, y, z);
    var a, b, c, d := x / 4, x % 4 * 16 + y / 16, y % 16 * 4 + z / 64, z % 64;
    SymbolRoundTrips(a);
    SymbolRoundTrips(b);
    SymbolRoundTrips(c);
    SymbolRoundTrips(d);
    ChunkBytesSplit(chunk, a, b, if |chunk| > 2 then c else 0, if |chunk| > 3 then d else 0, x, y, z);
    assert [x, y, z][..|data|] == data;
  }

  /** The bytes of a chunk whose bits regroup as `x`, `y` and `z`. */
  lemma ChunkBytesSplit(chunk: seq<Byte>, a: nat, b: nat, c: nat, d: nat, x: nat, y: nat, z: nat)
    requires 2 <= |chunk| <= 4 && Sextet(chunk[0]) == Some(a) && Sextet(chunk[1]) == Some(b)
    requires if |chunk| > 2 then Sextet(chunk[2]) == Some(c) else c == 0
    requires if |chunk| > 3 then Sextet(chunk[3]) == Some(d) else d == 0
    requires x < 256 && y < 256 && z < 256
    requires a * 262_144 + b * 4096 + c * 64 + d == x * 65536 + y * 256 + z
    ensures ChunkBytes(chunk) == Some([x, y, z][..|chunk| - 1])
  {
    hide Sextet, Bits;
    ChunkBits(chunk, a, b, c, d);
    SplitBuf(x, y, z);
  }

  /** Decoding the symbols of any data gives the data back. */
  lemma {:induction false} SymbolsDecode(data: seq<Byte>)
    requires IsBytes(data)
    ensures Decode(Symbols(data)) == Some(data)
  {
    if data != [] {
      var n := if |data| < 3 then |data| else 3;
      var symbols := Symbols(data);
      ChunkOfBytes(data[..n], symbols[..n + 1]);
      SymbolsDecode(data[n..]);
      assert symbols[n + 1..] == Symbols(data[n..]);
      assert data == data[..n] + data[n..];
    }
  }

  lemma {:induction false} SignificantConcat(s: seq<Byte>, t: seq<Byte>)
    ensures Significant(s + t) == Significant(s) + Significant(t)
  {
    hide Ignored;
    if t == [] {
      assert s + t == s;
    } else {
      assert (s + t)[..|s + t| - 1] == s + t[..|t| - 1];
      SignificantConcat(s, t[..|t| - 1]);
    }
  }

  lemma {:induction false} SignificantAll(s: seq<Byte>, ignored: bool)
    requires forall i :: 0 <= i < |s| ==> Ignored(s[i]) == ignored
    ensures Significant(s) == if ignored then [] else s
  {
    hide Ignored;
    if s != [] {
      SignificantAll(s[..|s| - 1], ignored);
    }
  }

  lemma {:induction false} SymbolsAreSignificant(data: seq<Byte>)
    requires IsBytes(data)
    ensures forall i :: 0 <= i < |Symbols(data)| ==> !Ignored(Symbols(data)[i])
  {
    hide Ignored, Symbol;
    if |data| >= 3 {
      SymbolsAreSignificant(data[3..]);
    }
  }

  /** A text is the encoding of some data, up to padding and whitespace. */
  ghost predicate Spells(text: seq<Byte>, data: seq<Byte>)
    requires IsBytes(data)
  {
    Significant(text) == Symbols(data)
  }

  /** The padded encoding spells its data, and dropping or inserting padding or whitespace anywhere changes nothing. */
  lemma EncodingSpells(data: seq<Byte>, s: seq<Byte>, ignored: seq<Byte>, t: seq<Byte>)
    requires IsBytes(data) && forall i :: 0 <= i < |ignored| ==> Ignored(ignored[i])
    ensures Spells(Encode(data), data)
    ensures Spells(s + ignored + t, data) <==> Spells(s + t, data)
  {
    hide Symbols, Significant, Ignored;
    SymbolsAreSignificant(data);
    SignificantAll(Symbols(data), false);
    var padding := Encode(data)[|Symbols(data)|..];
    assert Encode(data) == Symbols(data) + padding;
    SignificantConcat(Symbols(data), padding);
    IgnoredPad();
    SignificantAll(padding, true);
    assert Significant(Symbols(data) + padding) == Symbols(data) + [] == Symbols(data);
    SignificantConcat(s + ignored, t);
    SignificantConcat(s, ignored);
    SignificantConcat(s, t);
    SignificantAll(ignored, true);
    assert Significant(s) + [] == Significant(s);
  }

  lemma IgnoredPad()
    ensures Ignored(PAD)
  {
  }

  /** Decoding any spelling of any data gives the data back. */
  lemma RoundTrip(text: seq<Byte>, data: seq<Byte>)
    requires IsBytes(data) && Spells(text, data)
    ensures Decode(Significant(text)) == Some(data)
  {
    SymbolsDecode(data);
  }

  /** The bits of the last symbol that no byte takes are zero. */
  predicate Canonical(clean: seq<Byte>) {
    && InAlphabet(clean) && |clean| % 4 != 1
    && (|clean| % 4 == 2 ==> Sextet(clean[|clean| - 1]).value % 16 == 0)
    && (|clean| % 4 == 3 ==> Sextet(clean[|clean| - 1]).value % 4 == 0)
  }

  /** Four groups of six bits as three bytes, and back. */
  lemma RegroupBack(a: nat, b: nat, c: nat, d: nat)
    requires a < 64 && b < 64 && c < 64 && d < 64
    ensures var x, y, z := a * 4 + b / 16, b % 16 * 16 + c / 4, c % 4 * 64 + d;
      && x < 256 && y < 256 && z < 256
      && a * 262_144 + b * 4096 + c * 64 + d == x * 65536 + y * 256 + z
      && x / 4 == a && x % 4 * 16 == b - b % 16 && x % 4 * 16 + y / 16 == b
      && y % 16 * 4 == c - c % 4 && y % 16 * 4 + z / 64 == c && z % 64 == d
  {
  }

  lemma SymbolMatches(v: nat, c: Byte)
    requires v < 64 && Sextet(c).Some?
    ensures Symbol(v) == c <==> v == Sextet(c).value
  {
    SymbolRoundTrips(v);
    SextetIsInjective(c);
  }

  lemma ChunkEncodes(chunk: seq<Byte>)
    requires 2 <= |chunk| <= 4 && InAlphabet(chunk)
    ensures ChunkBytes(chunk).Some? && IsBytes(ChunkBytes(chunk).value) && |ChunkBytes(chunk).value| == |chunk| - 1
    ensures Symbols(ChunkBytes(chunk).value) == chunk <==> Canonical(chunk)
  {
    hide Symbol, Symbols, ChunkBytes, Sextet;
    var a, b := Sextet(chunk[0]).value, Sextet(chunk[1]).value;
    var c := if |chunk| > 2 then Sextet(chunk[2]).value else 0;
    var d := if |chunk| > 3 then Sextet(chunk[3]).value else 0;
    RegroupBack(a, b, c, d);
    var x, y, z := a * 4 + b / 16, b % 16 * 16 + c / 4, c % 4 * 64 + d;
    ChunkBytesSplit(chunk, a, b, c, d, x, y, z);
    var data := [x, y, z][..|chunk| - 1];
    var py, pz := if |chunk| > 2 then y else 0, if |chunk| > 3 then z else 0;
    SymbolsShort(data, x, py, pz);
    Regroup(x, py, pz);
    SymbolMatches(x / 4, chunk[0]);
    SymbolMatches(x % 4 * 16 + py / 16, chunk[1]);
    if |chunk| > 2 {
      SymbolMatches(py % 16 * 4 + pz / 64, chunk[2]);
    }
    if |chunk| > 3 {
      SymbolMatches(pz % 64, chunk[3]);
    }
    var s := Symbols(data);
    assert s == chunk <==>
      && s[0] == chunk[0] && s[1] == chunk[1]
      && (|chunk| > 2 ==> s[2] == chunk[2])
      && (|chunk| > 3 ==> s[3] == chunk[3]);
  }

  /** Encoding what was decoded gives the same significant bytes exactly when no stray bits were set. */
  lemma {:induction false} EncodeInverts(clean: seq<Byte>)
    requires Decode(clean).Some?
    ensures IsBytes(Decode(clean).value)
    ensures Symbols(Decode(clean).value) == clean <==> Canonical(clean)
  {
    hide Sextet, ChunkBytes, Symbol, InAlphabet;
    DecodesExactly(clean);
    if |clean| > 4 {
      var first, rest := clean[..4], clean[4..];
      InAlphabetSplit(clean, 4);
      CanonicalSplit(clean);
      ChunkEncodes(first);
      EncodeInverts(rest);
      assert Decode(clean) == Some(ChunkBytes(first).value + Decode(rest).value);
      hide Canonical, Decode, Symbols;
      SymbolsOfThree(ChunkBytes(first).value, Decode(rest).value);
      SplitEqual(Symbols(ChunkBytes(first).value), Symbols(Decode(rest).value), clean);
    } else if clean != [] {
      assert clean[..|clean|] == clean && clean[|clean|..] == [];
      assert Decode(clean).value == ChunkBytes(clean).value + [] == ChunkBytes(clean).value;
      hide Canonical, Symbols;
      ChunkEncodes(clean);
    }
  }

  lemma SplitEqual(a: seq<Byte>, b: seq<Byte>, clean: seq<Byte>)
    requires |a| == 4 < |clean|
    ensures a + b == clean <==> a == clean[..4] && b == clean[4..]
  {
    assert clean == clean[..4] + clean[4..];
    if a + b == clean {
      assert clean[..4] == a && clean[4..] == b;
    }
  }

  lemma CanonicalSplit(clean: seq<Byte>)
    requires |clean| > 4 && InAlphabet(clean) && |clean| % 4 != 1
    ensures Canonical(clean[..4])
    ensures Canonical(clean) <==> Canonical(clean[4..])
  {
    InAlphabetSplit(clean, 4);
    hide InAlphabet, Sextet;
    DecodedLengthStep(|clean|);
    assert clean[4..][|clean| - 5] == clean[|clean| - 1];
  }

  lemma SymbolsOfThree(x: seq<Byte>, y: seq<Byte>)
    requires |x| == 3 && IsBytes(x) && IsBytes(y)
    ensures Symbols(x + y) == Symbols(x) + Symbols(y) && |Symbols(x)| == 4
  {
    hide Symbol;
    assert (x + y)[3..] == y;
    assert x[3..] == [];
    assert Symbols(x) == Symbols(x) + [];
  }
}
