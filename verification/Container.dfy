/**
 The encrypted firmware container (crates/ltbox-core/src/crypto.rs): initialisation
 vector, salt and ciphertext, whose plaintext is a little-endian size, a signature, the
 body, its hash, and a tail nobody reads. Hash and cipher are abstract.
 */
module Container {
  import opened Arithmetic
  import opened Text
  import opened Wrappers

  type Bytes = seq<Byte>

  /** SHA-256 and AES-256-CBC without padding, keyed and with an initialisation vector. */
  datatype Primitives = Primitives(
    hash: Bytes -> Bytes,
    encrypt: (Bytes, Bytes, Bytes) -> Bytes,
    decrypt: (Bytes, Bytes, Bytes) -> Bytes)

  const HASH: nat := 32
  const BLOCK: nat := 16
  const PASSWORD: Bytes := [0x4F, 0x53, 0x44]
  const SIGNATURE: Bytes := [0xCF, 0x06, 0x05, 0x04, 0x03, 0x02, 0x01, 0xFC]
  const ITERATIONS: nat := 1000
  const KEY: nat := 32

  /** A hash has its length; the cipher maps whole blocks to as many, and decryption undoes encryption. */
  ghost predicate Sound(p: Primitives) {
    && (forall x :: |p.hash(x)| == HASH)
    && (forall k, iv, x :: |x| % BLOCK == 0 ==> |p.encrypt(k, iv, x)| == |x| && p.decrypt(k, iv, p.encrypt(k, iv, x)) == x)
    && (forall k, iv, x :: |x| % BLOCK == 0 ==> |p.decrypt(k, iv, x)| == |x| && (IsBytes(x) ==> IsBytes(p.decrypt(k, iv, x))))
  }

  // ---- Key derivation ---------------------------------------------------------------------

  /** T_i of section 5.1 of RFC 8018: the hash of password and salt, hashed i - 1 times more. */
  function T(hash: Bytes -> Bytes, password: Bytes, salt: Bytes, i: nat): Bytes
    requires i >= 1
  {
    if i == 1 then hash(password + salt) else hash(T(hash, password, salt, i - 1))
  }

  /** `pbkdf1_sha256`: the first octets of T_c; no iterations at all count as one. */
  method Pbkdf1(hash: Bytes -> Bytes, password: Bytes, salt: Bytes, iterations: nat, length: nat) returns (key: Bytes)
    ensures var t := T(hash, password, salt, if iterations == 0 then 1 else iterations);
      key == if length <= |t| then t[..length] else t
  {
    var digest := hash(password + salt);
    for i := 1 to if iterations == 0 then 1 else iterations
      invariant digest == T(hash, password, salt, i)
    {
      digest := hash(digest);
    }
    key := if length <= |digest| then digest[..length] else digest;
  }

  function KeyOf(p: Primitives, salt: Bytes): Bytes {
    var t := T(p.hash, PASSWORD, salt, ITERATIONS);
    if KEY <= |t| then t[..KEY] else t
  }

  /** The hash applied `n` times. */
  function Hashed(hash: Bytes -> Bytes, x: Bytes, n: nat): Bytes
    decreases n
  {
    if n == 0 then x else Hashed(hash, hash(x), n - 1)
  }

  lemma {:induction false} HashedSnoc(hash: Bytes -> Bytes, x: Bytes, n: nat)
    ensures Hashed(hash, x, n + 1) == hash(Hashed(hash, x, n))
    decreases n
  {
    if n > 0 {
      HashedSnoc(hash, hash(x), n - 1);
    }
  }

  lemma {:induction false} TIsHashed(hash: Bytes -> Bytes, password: Bytes, salt: Bytes, i: nat)
    requires i >= 1
    ensures T(hash, password, salt, i) == Hashed(hash, password + salt, i)
  {
    if i == 1 {
      assert Hashed(hash, password + salt, 1) == Hashed(hash, hash(password + salt), 0);
    } else {
      TIsHashed(hash, password, salt, i - 1);
      HashedSnoc(hash, password + salt, i - 1);
    }
  }

  /** The key is the three bytes `OSD` and then the salt, hashed a thousand times. */
  lemma KeyIs(p: Primitives, salt: Bytes)
    requires forall x :: |p.hash(x)| == 32
    ensures KeyOf(p, salt) == Hashed(p.hash, ['O' as int, 'S' as int, 'D' as int] + salt, 1000)
  {
    assert PASSWORD == ['O' as int, 'S' as int, 'D' as int];
    TIsHashed(p.hash, PASSWORD, salt, ITERATIONS);
  }

  // ---- Sizes ----------------------------------------------------------------------------------

  /** `n` as `k` bytes, least significant first. */
  function Le(n: nat, k: nat): (b: Bytes)
    ensures |b| == k && IsBytes(b)
  {
    if k == 0 then [] else [n % 256] + Le(n / 256, k - 1)
  }

  function FromLe(b: Bytes): int {
    if b == [] then 0 else b[0] + 256 * FromLe(b[1..])
  }

  /** `i64::from_le_bytes`. */
  function SignedLe(b: Bytes): int {
    if FromLe(b) <= I64_MAX then FromLe(b) else FromLe(b) - U64_MAX - 1
  }

  function Pow256(k: nat): nat {
    if k == 0 then 1 else 256 * Pow256(k - 1)
  }

  lemma {:induction false} LeRoundTrips(n: nat, k: nat)
    requires n < Pow256(k)
    ensures FromLe(Le(n, k)) == n
  {
    if k > 0 {
      assert n / 256 < Pow256(k - 1);
      LeRoundTrips(n / 256, k - 1);
    }
  }

  lemma {:induction false} FromLeRoundTrips(b: Bytes)
    requires IsBytes(b)
    ensures 0 <= FromLe(b) < Pow256(|b|)
    ensures Le(FromLe(b), |b|) == b
  {
    if b != [] {
      FromLeRoundTrips(b[1..]);
      var n := FromLe(b[1..]);
      assert (b[0] + 256 * n) / 256 == n && (b[0] + 256 * n) % 256 == b[0];
    }
  }

  lemma Pow256Of8()
    ensures Pow256(8) == U64_MAX + 1
  {
    assert Pow256(2) == 65536;
    assert Pow256(4) == 256 * 256 * Pow256(2);
    assert Pow256(6) == 256 * 256 * Pow256(4);
    assert Pow256(8) == 256 * 256 * Pow256(6);
  }

  /** The header is the size exactly when it encodes it. */
  lemma SizeHeader(header: Bytes, size: nat)
    requires |header| == 8 && IsBytes(header) && size <= I64_MAX
    ensures SignedLe(header) == size <==> header == Le(size, 8)
    ensures SignedLe(header) <= I64_MAX
  {
    Pow256Of8();
    FromLeRoundTrips(header);
    LeRoundTrips(size, 8);
  }

  // ---- The plaintext ----------------------------------------------------------------------------

  datatype Error = FileTooSmall | NotWholeBlocks | PlainTooSmall | BadSignature | NegativeSize | Truncated | HashMismatch

  /** What packing encrypts, up to the tail that fills the last block. */
  function Plaintext(p: Primitives, body: Bytes): Bytes {
    Le(|body|, 8) + SIGNATURE + body + p.hash(body)
  }

  /** The plaintext holds this body. */
  ghost predicate Holds(p: Primitives, plain: Bytes, body: Bytes) {
    |body| <= I64_MAX && Plaintext(p, body) <= plain
  }

  /** The checks on a plaintext, in order. */
  function Checked(p: Primitives, plain: Bytes): Result<Bytes, Error> {
    if |plain| < 16 then Err(PlainTooSmall)
    else
      var size := SignedLe(plain[..8]);
      if plain[8..16] != SIGNATURE then Err(BadSignature)
      else if size < 0 then Err(NegativeSize)
      else if 16 + size + HASH > |plain| then Err(Truncated)
      else if p.hash(plain[16..16 + size]) != plain[16 + size..16 + size + HASH] then Err(HashMismatch)
      else Ok(plain[16..16 + size])
  }

  /** Where the parts of a held body lie. */
  lemma PartsOfPlaintext(p: Primitives, plain: Bytes, body: Bytes)
    requires Sound(p)
    ensures Holds(p, plain, body) <==>
      && |body| <= I64_MAX && 16 + |body| + HASH <= |plain|
      && plain[..8] == Le(|body|, 8) && plain[8..16] == SIGNATURE
      && plain[16..16 + |body|] == body && plain[16 + |body|..16 + |body| + HASH] == p.hash(body)
  {
    assert |p.hash(body)| == HASH;
    hide Sound, Le;
    FourParts(Le(|body|, 8), SIGNATURE, body, p.hash(body), plain);
  }

  lemma FourParts(a: Bytes, b: Bytes, c: Bytes, d: Bytes, whole: Bytes)
    ensures var i, j, k, n := |a|, |a| + |b|, |a| + |b| + |c|, |a| + |b| + |c| + |d|;
      a + b + c + d <= whole <==>
        n <= |whole| && whole[..i] == a && whole[i..j] == b && whole[j..k] == c && whole[k..n] == d
  {
    TwoParts(a + b + c, d, whole);
    TwoParts(a + b, c, whole);
    TwoParts(a, b, whole);
  }

  lemma TwoParts(a: Bytes, b: Bytes, whole: Bytes)
    ensures a + b <= whole <==> a <= whole && |a| + |b| <= |whole| && whole[|a|..|a| + |b|] == b
    ensures a <= whole <==> |a| <= |whole| && whole[..|a|] == a
  {
    if a <= whole && |a| + |b| <= |whole| && whole[|a|..|a| + |b|] == b {
      assert whole[..|a| + |b|] == whole[..|a|] + whole[|a|..|a| + |b|];
    }
    if a + b <= whole {
      assert whole[..|a|] == (a + b)[..|a|] == a;
      assert whole[|a|..|a| + |b|] == (a + b)[|a|..] == b;
    }
  }

  /** The checks accept a body exactly when the plaintext holds it; no header value reads out of bounds. */
  lemma CheckedExactly(p: Primitives, plain: Bytes, body: Bytes)
    requires Sound(p) && IsBytes(plain)
    ensures Checked(p, plain) == Ok(body) <==> Holds(p, plain, body)
  {
    PartsOfPlaintext(p, plain, body);
    if |plain| >= 16 {
      var size := SignedLe(plain[..8]);
      assert |body| <= I64_MAX ==> (size == |body| <==> plain[..8] == Le(|body|, 8)) by {
        if |body| <= I64_MAX {
          SizeHeader(plain[..8], |body|);
        }
      }
      assert size <= I64_MAX by { SizeHeader(plain[..8], 0); }
      hide SignedLe, Le, Sound, Holds;
    }
  }

  /** Eight bytes, least significant first. */
  lemma FromLeIs(b: Bytes)
    requires |b| == 8
    ensures FromLe(b) == b[0] + 0x100 * b[1] + 0x1_0000 * b[2] + 0x100_0000 * b[3] + 0x1_0000_0000 * b[4]
      + 0x100_0000_0000 * b[5] + 0x1_0000_0000_0000 * b[6] + 0x100_0000_0000_0000 * b[7]
  {
    assert FromLe(b[4..]) == b[4] + 0x100 * b[5] + 0x1_0000 * b[6] + 0x100_0000 * b[7] by {
      FromLeOfFour(b[4..]);
    }
    assert FromLe(b) == b[0] + 0x100 * FromLe(b[1..]);
    assert b[1..][1..] == b[2..] && b[2..][1..] == b[3..] && b[3..][1..] == b[4..];
    assert FromLe(b[1..]) == b[1] + 0x100 * FromLe(b[2..]);
    assert FromLe(b[2..]) == b[2] + 0x100 * FromLe(b[3..]);
    assert FromLe(b[3..]) == b[3] + 0x100 * FromLe(b[4..]);
  }

  lemma FromLeOfFour(b: Bytes)
    requires |b| == 4
    ensures FromLe(b) == b[0] + 0x100 * b[1] + 0x1_0000 * b[2] + 0x100_0000 * b[3]
  {
    assert b[1..][1..] == b[2..] && b[2..][1..] == b[3..] && b[3..][1..] == [];
    assert FromLe(b[3..]) == b[3];
    assert FromLe(b[2..]) == b[2] + 0x100 * FromLe(b[3..]);
    assert FromLe(b[1..]) == b[1] + 0x100 * FromLe(b[2..]);
  }

  // ---- The file ------------------------------------------------------------------------------------

  /** The plaintext of a file of whole blocks. */
  function Plain(p: Primitives, data: Bytes): Bytes
    requires |data| >= 32
  {
    p.decrypt(KeyOf(p, data[16..32]), data[..16], data[32..])
  }

  /** A file of initialisation vector, salt and whole blocks whose plaintext holds the body. */
  ghost predicate IsContainer(p: Primitives, data: Bytes, body: Bytes) {
    |data| >= 32 && (|data| - 32) % BLOCK == 0 && Holds(p, Plain(p, data), body)
  }

  lemma ShortIsNoContainer(p: Primitives, data: Bytes)
    requires |data| < 32 || (|data| - 32) % BLOCK != 0
    ensures forall body :: !IsContainer(p, data, body)
  {
  }

  /** What the checks say of the plaintext decides the file. */
  lemma CheckDecides(p: Primitives, data: Bytes, r: Result<Bytes, Error>)
    requires Sound(p) && IsBytes(data) && |data| >= 32 && (|data| - 32) % BLOCK == 0
    requires r == Checked(p, Plain(p, data))
    ensures forall body :: IsContainer(p, data, body) <==> r == Ok(body)
    ensures r.Err? ==> r.error != FileTooSmall && r.error != NotWholeBlocks
  {
    var plain := Plain(p, data);
    assert IsBytes(plain);
    hide Sound, Holds, Plain, SignedLe;
    forall body ensures IsContainer(p, data, body) <==> r == Ok(body) {
      CheckedExactly(p, plain, body);
    }
  }

  /**
   `decrypt_file`, without reading and writing the files: it returns the body exactly of
   the containers, with its size, and otherwise names the first check that failed.
   */
  method Decrypt(p: Primitives, data: Bytes) returns (r: Result<(Bytes, nat), Error>)
    requires Sound(p) && IsBytes(data)
    ensures forall body :: IsContainer(p, data, body) ==> r == Ok((body, |body|))
    ensures r.Ok? ==> IsContainer(p, data, r.value.0) && r.value.1 == |r.value.0|
    ensures r == Err(FileTooSmall) <==> |data| < 32
    ensures r == Err(NotWholeBlocks) <==> |data| >= 32 && (|data| - 32) % BLOCK != 0
    ensures |data| >= 32 && (|data| - 32) % BLOCK == 0 && r.Err? ==> Checked(p, Plain(p, data)) == Err(r.error)
  {
    hide Sound, Checked, Holds, T, IsContainer;
    if |data| < 32 {
      ShortIsNoContainer(p, data);
      return Err(FileTooSmall);
    }
    var iv, salt, buf := data[..16], data[16..32], data[32..];
    var key := Pbkdf1(p.hash, PASSWORD, salt, ITERATIONS, KEY);
    assert key == KeyOf(p, salt);
    hide KeyOf;
    if |buf| % BLOCK != 0 {
      ShortIsNoContainer(p, data);
      return Err(NotWholeBlocks);
    }
    var plain := p.decrypt(key, iv, buf);
    var body := CheckPlain(p, plain);
    CheckDecides(p, data, body);
    return if body.Err? then Err(body.error) else Ok((body.value, |body.value|));
  }

  /** The checks of `decrypt_file` on the decrypted buffer. */
  method CheckPlain(p: Primitives, plain: Bytes) returns (r: Result<Bytes, Error>)
    ensures r == Checked(p, plain)
  {
    if |plain| < 16 {
      return Err(PlainTooSmall);
    }
    var size := SignedLe(plain[..8]);
    if plain[8..16] != SIGNATURE {
      return Err(BadSignature);
    }
    if size < 0 {
      return Err(NegativeSize);
    }
    var bodyEnd := 16 + size;
    var hashEnd := bodyEnd + HASH;
    if hashEnd > |plain| {
      return Err(Truncated);
    }
    var body := plain[16..bodyEnd];
    if p.hash(body) != plain[bodyEnd..hashEnd] {
      return Err(HashMismatch);
    }
    return Ok(body);
  }

  /** The first eight bytes are the length of the body, least significant first. */
  predicate SizedFor(plain: Bytes, body: Bytes)
    requires |plain| >= 8
  {
    plain[0] + 0x100 * plain[1] + 0x1_0000 * plain[2] + 0x100_0000 * plain[3] + 0x1_0000_0000 * plain[4]
    + 0x100_0000_0000 * plain[5] + 0x1_0000_0000_0000 * plain[6] + 0x100_0000_0000_0000 * plain[7] == |body|
  }

  lemma SizedExactly(plain: Bytes, body: Bytes)
    requires |plain| >= 8 && IsBytes(plain) && |body| <= I64_MAX
    ensures plain[..8] == Le(|body|, 8) <==> SizedFor(plain, body)
  {
    var header := plain[..8];
    hide FromLe, Le;
    LeIsUnique(header, |body|);
    FromLeIs(header);
  }

  lemma LeIsUnique(header: Bytes, size: nat)
    requires |header| == 8 && IsBytes(header) && size <= I64_MAX
    ensures header == Le(size, 8) <==> FromLe(header) == size
  {
    hide FromLe, Le;
    Pow256Of8();
    FromLeRoundTrips(header);
    LeRoundTrips(size, 8);
  }

  /**
   A container, byte by byte: vector, salt and whole blocks, which decrypt under the
   hashed key to the size, the signature, the body and the hash of the body.
   */
  lemma ContainerIs(p: Primitives, data: Bytes, body: Bytes)
    requires Sound(p) && IsBytes(data) && |body| <= I64_MAX
    ensures IsContainer(p, data, body) <==>
      && |data| >= 32 && |data| % 16 == 0
      && var key := Hashed(p.hash, ['O' as int, 'S' as int, 'D' as int] + data[16..32], 1000);
        var plain, n := p.decrypt(key, data[..16], data[32..]), |body|;
        && |plain| >= 48 + n && SizedFor(plain, body)
        && plain[8..16] == [0xCF, 0x06, 0x05, 0x04, 0x03, 0x02, 0x01, 0xFC]
        && plain[16..16 + n] == body && plain[16 + n..48 + n] == p.hash(body)
  {
    if |data| >= 32 && |data| % 16 == 0 {
      KeyIs(p, data[16..32]);
      var plain := Plain(p, data);
      assert IsBytes(plain);
      PartsOfPlaintext(p, plain, body);
      if |plain| >= 8 {
        SizedExactly(plain, body);
      }
    }
    hide Sound, Holds, Le, SizedFor, Hashed, KeyOf;
  }

  /** At most one body is in a container. */
  lemma BodyIsUnique(p: Primitives, data: Bytes, a: Bytes, b: Bytes)
    requires Sound(p) && IsBytes(data) && IsContainer(p, data, a) && IsContainer(p, data, b)
    ensures a == b
  {
    CheckedExactly(p, Plain(p, data), a);
    CheckedExactly(p, Plain(p, data), b);
  }

  function Pack(p: Primitives, iv: Bytes, salt: Bytes, body: Bytes, tail: Bytes): Bytes {
    iv + salt + p.encrypt(KeyOf(p, salt), iv, Plaintext(p, body) + tail)
  }

  /** Packing any body under any vector and salt, with any tail that fills the last block, makes a container of it. */
  lemma PackIsContainer(p: Primitives, iv: Bytes, salt: Bytes, body: Bytes, tail: Bytes)
    requires Sound(p) && |iv| == 16 && |salt| == 16 && |body| <= I64_MAX
    requires (|body| + |tail|) % BLOCK == 0
    ensures IsContainer(p, Pack(p, iv, salt, body, tail), body)
  {
    var text, key := Plaintext(p, body) + tail, KeyOf(p, salt);
    assert |p.hash(body)| == HASH;
    WholeBlocks(p, body, tail);
    Deciphers(p, key, iv, text);
    hide *;
    var cipher := p.encrypt(key, iv, text);
    PackParts(p, iv, salt, body, tail);
    HoldingIsContainer(p, Pack(p, iv, salt, body, tail), body, tail);
  }

  lemma PackParts(p: Primitives, iv: Bytes, salt: Bytes, body: Bytes, tail: Bytes)
    requires |iv| == 16 && |salt| == 16
    ensures var data := Pack(p, iv, salt, body, tail);
      && |data| >= 32 && data[..16] == iv && data[16..32] == salt
      && data[32..] == p.encrypt(KeyOf(p, salt), iv, Plaintext(p, body) + tail)
  {
    hide KeyOf, Plaintext;
  }

  lemma HoldingIsContainer(p: Primitives, data: Bytes, body: Bytes, tail: Bytes)
    requires |data| >= 32 && |data[32..]| % BLOCK == 0 && |body| <= I64_MAX
    requires p.decrypt(KeyOf(p, data[16..32]), data[..16], data[32..]) == Plaintext(p, body) + tail
    ensures IsContainer(p, data, body)
  {
    hide KeyOf, Plaintext;
    assert Plaintext(p, body) <= Plaintext(p, body) + tail;
  }

  lemma WholeBlocks(p: Primitives, body: Bytes, tail: Bytes)
    requires |p.hash(body)| == HASH && (|body| + |tail|) % BLOCK == 0
    ensures |Plaintext(p, body) + tail| % BLOCK == 0
  {
    assert |Plaintext(p, body) + tail| == 3 * BLOCK + (|body| + |tail|);
  }

  lemma Deciphers(p: Primitives, key: Bytes, iv: Bytes, text: Bytes)
    requires Sound(p) && |text| % BLOCK == 0
    ensures |p.encrypt(key, iv, text)| == |text| && p.decrypt(key, iv, p.encrypt(key, iv, text)) == text
  {
  }

  /** What was packed is what is decrypted. */
  method PackThenDecrypt(p: Primitives, iv: Bytes, salt: Bytes, body: Bytes, tail: Bytes) returns (r: Result<(Bytes, nat), Error>)
    requires Sound(p) && |iv| == 16 && |salt| == 16 && |body| <= I64_MAX && (|body| + |tail|) % BLOCK == 0
    requires IsBytes(Pack(p, iv, salt, body, tail))
    ensures r == Ok((body, |body|))
  {
    PackIsContainer(p, iv, salt, body, tail);
    r := Decrypt(p, Pack(p, iv, salt, body, tail));
  }
}
