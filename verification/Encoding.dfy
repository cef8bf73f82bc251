/**
 * Byte encodings: the 8-byte big-endian integers inside every hashed preimage, written once as a loop
 * and once unrolled in the source, and the fixed 64-byte R || S signature layout.
 */
module Encoding {
  import opened Types

  function Pow256(n: nat): nat {
    if n == 0 then 1 else 256 * Pow256(n - 1)
  }

  /** The n low-order base-256 digits of x, most significant first. */
  function BigEndian(x: nat, n: nat): Bytes {
    if n == 0 then [] else BigEndian(x / 256, n - 1) + [(x % 256) as byte]
  }

  /** The number a big-endian byte string denotes (`big.Int.SetBytes`). */
  function Value(b: Bytes): nat {
    if b == [] then 0 else 256 * Value(b[..|b| - 1]) + b[|b| - 1] as nat
  }

  function BE8(x: nat): Bytes {
    BigEndian(x, 8)
  }

  lemma {:induction false} ValueOfBigEndian(x: nat, n: nat)
    requires x < Pow256(n)
    ensures |BigEndian(x, n)| == n && Value(BigEndian(x, n)) == x
  {
    if n > 0 {
      assert x / 256 < Pow256(n - 1);
      ValueOfBigEndian(x / 256, n - 1);
      assert BigEndian(x, n)[..n - 1] == BigEndian(x / 256, n - 1);
    }
  }

  lemma {:induction false} BigEndianLength(x: nat, n: nat)
    ensures |BigEndian(x, n)| == n
  {
    if n > 0 {
      BigEndianLength(x / 256, n - 1);
    }
  }

  const MAX64: nat := 0x1_0000_0000_0000_0000

  lemma {:induction false} Pow256Of8()
    ensures Pow256(8) == MAX64
  {
    assert Pow256(4) == 0x1_0000_0000;
    assert Pow256(8) == 256 * (256 * (256 * (256 * Pow256(4))));
  }

  /** The digit loop of benchutil and repbench: `buf[i] = byte(ht); ht >>= 8` for i from 7 down to 0. */
  method EncodeLoop(x: nat) returns (buf: array<byte>)
    ensures fresh(buf) && buf[..] == BE8(x)
  {
    buf := new byte[8](_ => 0);
    var ht := x;
    var i := 7;
    while i >= 0
      invariant -1 <= i <= 7
      invariant BigEndian(ht, i + 1) + buf[i + 1..] == BE8(x)
    {
      ghost var before := buf[i + 1..];
      buf[i] := (ht % 256) as byte;
      assert buf[i..] == [buf[i]] + before;
      assert BigEndian(ht, i + 1) + before == BigEndian(ht / 256, i) + buf[i..];
      ht := ht / 256;
      i := i - 1;
    }
    assert buf[0..] == buf[..];
  }

  /** Division by 256 twice is one shift by sixteen bits, and so on: the unrolled digits are the looped ones. */
  lemma {:induction false} ShiftsAreDigits(x: nat)
    ensures BE8(x) == [(x / 0x100_0000_0000_0000 % 256) as byte, (x / 0x1_0000_0000_0000 % 256) as byte,
                       (x / 0x100_0000_0000 % 256) as byte, (x / 0x1_0000_0000 % 256) as byte,
                       (x / 0x100_0000 % 256) as byte, (x / 0x1_0000 % 256) as byte,
                       (x / 0x100 % 256) as byte, (x % 256) as byte]
  {
    var x1 := x / 256;
    var x2 := x1 / 256;
    var x3 := x2 / 256;
    var x4 := x3 / 256;
    var x5 := x4 / 256;
    var x6 := x5 / 256;
    var x7 := x6 / 256;
    assert x2 == x / 0x1_0000 && x3 == x / 0x100_0000 && x4 == x / 0x1_0000_0000;
    assert x5 == x / 0x100_0000_0000 && x6 == x / 0x1_0000_0000_0000 && x7 == x / 0x100_0000_0000_0000;
    assert BigEndian(x7, 1) == [(x7 % 256) as byte];
    assert BigEndian(x6, 2) == [(x7 % 256) as byte, (x6 % 256) as byte];
    assert BigEndian(x5, 3) == BigEndian(x6, 2) + [(x5 % 256) as byte];
    assert BigEndian(x4, 4) == BigEndian(x5, 3) + [(x4 % 256) as byte];
    assert BigEndian(x3, 5) == BigEndian(x4, 4) + [(x3 % 256) as byte];
    assert BigEndian(x2, 6) == BigEndian(x3, 5) + [(x2 % 256) as byte];
    assert BigEndian(x1, 7) == BigEndian(x2, 6) + [(x1 % 256) as byte];
    assert BigEndian(x, 8) == BigEndian(x1, 7) + [(x % 256) as byte];
  }

  /** The unrolled form of consensus, statetransfer and crypto: `buf[k] = byte(height >> (56 - 8k))`. */
  method EncodeUnrolled(x: nat) returns (buf: array<byte>)
    ensures fresh(buf) && buf[..] == BE8(x)
  {
    buf := new byte[8](_ => 0);
    buf[0] := (x / 0x100_0000_0000_0000 % 256) as byte;
    buf[1] := (x / 0x1_0000_0000_0000 % 256) as byte;
    buf[2] := (x / 0x100_0000_0000 % 256) as byte;
    buf[3] := (x / 0x1_0000_0000 % 256) as byte;
    buf[4] := (x / 0x100_0000 % 256) as byte;
    buf[5] := (x / 0x1_0000 % 256) as byte;
    buf[6] := (x / 0x100 % 256) as byte;
    buf[7] := (x % 256) as byte;
    ShiftsAreDigits(x);
  }

  lemma {:induction false} BE8Injective(x: nat, y: nat)
    requires x < MAX64 && y < MAX64
    requires BE8(x) == BE8(y)
    ensures x == y
  {
    Pow256Of8();
    ValueOfBigEndian(x, 8);
    ValueOfBigEndian(y, 8);
  }

  function HeaderPreimage(b: Block): Bytes {
    b.parentHash + BE8(b.height)
  }

  function VotePreimage(view: nat, conf: nat, blockHash: Hash): Bytes {
    BE8(view) + BE8(conf) + blockHash
  }

  lemma SuffixSplit<T>(a: seq<T>, b: seq<T>, c: seq<T>, d: seq<T>)
    requires a + b == c + d && |b| == |d|
    ensures a == c && b == d
  {
    assert |a| == |c|;
    assert a == (a + b)[..|a|] == (c + d)[..|c|] == c;
    assert b == (a + b)[|a|..] == (c + d)[|c|..] == d;
  }

  /** Parent hashes of any length cannot be confused with the height that follows them. */
  lemma {:induction false} HeaderPreimageInjective(b: Block, c: Block)
    requires HeaderPreimage(b) == HeaderPreimage(c)
    ensures b.parentHash == c.parentHash
    ensures b.height < MAX64 && c.height < MAX64 ==> b.height == c.height
  {
    BigEndianLength(b.height, 8);
    BigEndianLength(c.height, 8);
    SuffixSplit(b.parentHash, BE8(b.height), c.parentHash, BE8(c.height));
    if b.height < MAX64 && c.height < MAX64 {
      BE8Injective(b.height, c.height);
    }
  }

  lemma {:induction false} VotePreimageInjective(v: nat, c: nat, h: Hash, v': nat, c': nat, h': Hash)
    requires v < MAX64 && c < MAX64 && v' < MAX64 && c' < MAX64
    requires VotePreimage(v, c, h) == VotePreimage(v', c', h')
    ensures v == v' && c == c' && h == h'
  {
    BigEndianLength(v, 8);
    BigEndianLength(c, 8);
    BigEndianLength(v', 8);
    BigEndianLength(c', 8);
    var p, q := VotePreimage(v, c, h), VotePreimage(v', c', h');
    assert BE8(v) == p[..8] == q[..8] == BE8(v');
    assert BE8(c) == p[8..16] == q[8..16] == BE8(c');
    assert h == p[16..] == q[16..] == h';
    BE8Injective(v, v');
    BE8Injective(c, c');
  }

  /** Where the parts of a header stand: the parent hash, then eight bytes that denote the height. */
  lemma {:induction false} HeaderLayout(b: Block)
    requires b.height < MAX64
    ensures var p, n := HeaderPreimage(b), |b.parentHash|;
            |p| == n + 8 && p[..n] == b.parentHash && Value(p[n..]) == b.height
  {
    Pow256Of8();
    ValueOfBigEndian(b.height, 8);
    assert HeaderPreimage(b)[|b.parentHash|..] == BE8(b.height);
  }

  /** And of what a vote is signed over: view, configuration, block hash. */
  lemma {:induction false} VoteLayout(view: nat, conf: nat, blockHash: Hash)
    requires view < MAX64 && conf < MAX64
    ensures var p := VotePreimage(view, conf, blockHash);
            |p| == 16 + |blockHash| && Value(p[..8]) == view && Value(p[8..16]) == conf && p[16..] == blockHash
  {
    Pow256Of8();
    ValueOfBigEndian(view, 8);
    ValueOfBigEndian(conf, 8);
    var p := VotePreimage(view, conf, blockHash);
    assert p[..8] == BE8(view) && p[8..16] == BE8(conf) && p[16..] == blockHash;
  }

  /** Go's `copy(dst[at:], src)` for a source that fits. */
  method CopyInto(dst: array<byte>, at: nat, src: Bytes)
    requires at + |src| <= dst.Length
    modifies dst
    ensures forall k :: 0 <= k < dst.Length ==> dst[k] == if at <= k < at + |src| then src[k - at] else old(dst[k])
  {
    for i := 0 to |src|
      invariant forall k :: 0 <= k < dst.Length ==> dst[k] == if at <= k < at + i then src[k - at] else old(dst[k])
    {
      dst[at + i] := src[i];
    }
  }

  /** `hashTuple`: sixteen bytes of view and configuration, then the block hash. */
  method HashTuple(sha: Sha, view: nat, conf: nat, blockHash: Hash) returns (digest: Bytes)
    ensures digest == sha(VotePreimage(view, conf, blockHash))
  {
    BigEndianLength(view, 8);
    BigEndianLength(conf, 8);
    var left := EncodeUnrolled(view);
    var right := EncodeUnrolled(conf);
    var buf := new byte[16](_ => 0);
    CopyInto(buf, 0, left[..]);
    CopyInto(buf, 8, right[..]);
    assert buf[..] == left[..] + right[..];
    digest := sha(buf[..] + blockHash);
  }

  // ---------------------------------------------------------------- block hash

  /** The header digest: it covers the parent hash and the height, and neither the batch nor the justify. */
  function HashBlock(sha: Sha, b: Block): Hash {
    sha(HeaderPreimage(b))
  }

  method HashBlockUnrolled(sha: Sha, b: Block) returns (h: Hash)
    ensures h == HashBlock(sha, b)
  {
    var buf := EncodeUnrolled(b.height);
    h := sha(b.parentHash + buf[..]);
  }

  method HashBlockLoop(sha: Sha, b: Block) returns (h: Hash)
    ensures h == HashBlock(sha, b)
  {
    var buf := EncodeLoop(b.height);
    h := sha(b.parentHash + buf[..]);
  }

  ghost predicate Collide(sha: Sha, b: Block, c: Block) {
    HeaderPreimage(b) != HeaderPreimage(c) && HashBlock(sha, b) == HashBlock(sha, c)
  }

  /**
   * The named hypothesis on the digest: among the blocks at hand no two headers collide. (A digest of fixed
   * length collides somewhere, so the hypothesis is about the blocks a statement speaks of.)
   */
  ghost predicate CollisionFree(sha: Sha, blocks: set<Block>) {
    forall b, c {:trigger Collide(sha, b, c)} :: b in blocks && c in blocks ==> !Collide(sha, b, c)
  }

  /** Equal block hashes fix the header and nothing else. */
  lemma {:induction false} EqualHashesEqualHeaders(sha: Sha, blocks: set<Block>, b: Block, c: Block)
    requires CollisionFree(sha, blocks) && b in blocks && c in blocks
    requires HashBlock(sha, b) == HashBlock(sha, c)
    ensures b.parentHash == c.parentHash
    ensures b.height < MAX64 && c.height < MAX64 ==> b.height == c.height
  {
    assert !Collide(sha, b, c);
    HeaderPreimageInjective(b, c);
  }

  // ---------------------------------------------------------------- R || S signatures

  const FIELD_BYTES: nat := 32

  /** `big.Int.Bytes`: big-endian without leading zeros. */
  function MinimalBytes(x: nat): Bytes {
    if x == 0 then [] else MinimalBytes(x / 256) + [(x % 256) as byte]
  }

  lemma {:induction false} MinimalBytesValue(x: nat)
    ensures Value(MinimalBytes(x)) == x
  {
    if x > 0 {
      MinimalBytesValue(x / 256);
      var m := MinimalBytes(x);
      assert m[..|m| - 1] == MinimalBytes(x / 256);
    }
  }

  /** Exactly the numbers below 256^n fit into n bytes. */
  lemma {:induction false} MinimalBytesLength(x: nat, n: nat)
    ensures |MinimalBytes(x)| <= n <==> x < Pow256(n)
  {
    if x > 0 && n > 0 {
      MinimalBytesLength(x / 256, n - 1);
    } else {
      Pow256Positive(n);
    }
  }

  lemma {:induction false} Pow256Positive(n: nat)
    ensures Pow256(n) >= 1
  {
    if n > 0 {
      Pow256Positive(n - 1);
    }
  }

  lemma {:induction false} LeadingZeros(z: Bytes, b: Bytes)
    requires forall i :: 0 <= i < |z| ==> z[i] == 0
    ensures Value(z + b) == Value(b)
  {
    if b == [] {
      assert z + b == z;
      if z != [] {
        LeadingZeros(z[..|z| - 1], []);
        assert z[..|z| - 1] + [] == z[..|z| - 1];
      }
    } else {
      LeadingZeros(z, b[..|b| - 1]);
      assert (z + b)[..|z + b| - 1] == z + b[..|b| - 1];
    }
  }

  /** A number right-aligned in a field is read back. */
  lemma Aligned(field: Bytes, pad: nat, x: nat)
    requires pad + |MinimalBytes(x)| == |field| && field[pad..] == MinimalBytes(x)
    requires forall i :: 0 <= i < pad ==> field[i] == 0
    ensures Value(field) == x
  {
    MinimalBytesValue(x);
    LeadingZeros(field[..pad], MinimalBytes(x));
    assert field == field[..pad] + MinimalBytes(x);
  }

  /** The packing itself, for numbers of at most 32 bytes. */
  method PackRS(r: nat, s: nat) returns (sig: Bytes)
    requires |MinimalBytes(r)| <= FIELD_BYTES && |MinimalBytes(s)| <= FIELD_BYTES
    ensures |sig| == 2 * FIELD_BYTES && DecodeRS(sig) == (r, s)
  {
    var rBytes, sBytes := MinimalBytes(r), MinimalBytes(s);
    var buf := new byte[64](_ => 0);
    var atR, atS := FIELD_BYTES - |rBytes|, 2 * FIELD_BYTES - |sBytes|;
    CopyInto(buf, atR, rBytes);
    CopyInto(buf, atS, sBytes);
    sig := buf[..];
    var left, right := sig[..FIELD_BYTES], sig[FIELD_BYTES..];
    assert left[atR..] == rBytes && right[atS - FIELD_BYTES..] == sBytes;
    Aligned(left, atR, r);
    Aligned(right, atS - FIELD_BYTES, s);
  }

  /** What fits a field. */
  predicate FitsField(x: nat) {
    x < Pow256(FIELD_BYTES)
  }

  lemma FieldBytes(x: nat)
    requires FitsField(x)
    ensures |MinimalBytes(x)| <= FIELD_BYTES
  {
    MinimalBytesLength(x, FIELD_BYTES);
  }

  /** `encodeRS`: both numbers, below 2^256, right-aligned in 32 bytes. */
  method EncodeRS(r: nat, s: nat) returns (sig: Bytes)
    requires FitsField(r) && FitsField(s)
    ensures |sig| == 2 * FIELD_BYTES && DecodeRS(sig) == (r, s)
  {
    FieldBytes(r);
    FieldBytes(s);
    sig := PackRS(r, s);
  }

  function DecodeRS(sig: Bytes): (nat, nat)
    requires |sig| >= FIELD_BYTES
  {
    (Value(sig[..FIELD_BYTES]), Value(sig[FIELD_BYTES..]))
  }
}
