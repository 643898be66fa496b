/** Reading arguments out of call data as the Solidity Contract ABI Specification lays them
    out: every head slot is a 32-byte word; `uint256` is big-endian; `address` is right-aligned
    in its word; a dynamic argument (`bytes`, `string`, `uint256[]`) keeps in its head slot the
    offset of its tail, where a length word precedes the contents. A read past the end of the
    data throws, which is modelled as `Err(OutOfBounds)`. */
module Abi {
  import opened Wrappers
  import opened Hex
  import Decimal
  import Utf8

  const WordSize: nat := 32

  type Address = b: seq<Byte> | |b| == 20 witness seq(20, _ => 0)

  /** The address as viem would print it, but lower-case (the EIP-55 mixed-case checksum
      needs keccak-256 and is not modelled). */
  function AddressText(a: Address): (s: string)
    ensures HasHexPrefix(s) && |s| == 42
  {
    ToHex(a)
  }

  function Pow256(k: nat): (p: nat)
    ensures p >= 1
  {
    if k == 0 then 1 else 256 * Pow256(k - 1)
  }

  /** 2^256, the numbers a word holds. */
  const WordRange: nat := 0x1_0000_0000_0000_0000_0000_0000_0000_0000_0000_0000_0000_0000_0000_0000_0000_0000

  lemma WordRangeIsPow()
    ensures Pow256(WordSize) == WordRange
  {
    assert Pow256(1) == 256;
    PowAdd(1, 1);
    assert Pow256(2) == 0x1_0000;
    PowAdd(2, 2);
    assert Pow256(4) == 0x1_0000_0000;
    PowAdd(4, 4);
    assert Pow256(8) == 0x1_0000_0000_0000_0000;
    PowAdd(8, 8);
    assert Pow256(16) == 0x1_0000_0000_0000_0000_0000_0000_0000_0000;
    PowAdd(16, 16);
  }

  lemma {:induction false} PowAdd(a: nat, b: nat)
    ensures Pow256(a + b) == Pow256(a) * Pow256(b)
  {
    if a > 0 {
      PowAdd(a - 1, b);
      assert Pow256(a + b) == 256 * Pow256(a - 1 + b);
      assert Pow256(a) == 256 * Pow256(a - 1);
    }
  }

  /** The numbers a `uint256` holds. */
  predicate FitsWord(n: nat) {
    n < WordRange
  }

  predicate AllFit(ns: seq<nat>) {
    forall i :: 0 <= i < |ns| ==> FitsWord(ns[i])
  }

  /** A big-endian unsigned number. */
  function BigEndian(w: seq<Byte>): (n: nat)
    ensures n < Pow256(|w|)
  {
    if w == [] then 0 else BigEndian(w[..|w| - 1]) * 256 + w[|w| - 1]
  }

  function ReadWord(data: seq<Byte>, pos: nat): (r: Result<seq<Byte>>)
    ensures r.Ok? <==> pos + WordSize <= |data|
    ensures r.Ok? ==> r.value == data[pos..pos + WordSize]
    ensures r.Err? ==> r.error == OutOfBounds
  {
    if pos + WordSize <= |data| then Ok(data[pos..pos + WordSize]) else Err(OutOfBounds)
  }

  function ReadUint(data: seq<Byte>, pos: nat): (r: Result<nat>)
    ensures r.Ok? <==> pos + WordSize <= |data|
    ensures r.Ok? ==> r.value < WordRange
  {
    var w :- ReadWord(data, pos);
    WordRangeIsPow();
    Ok(BigEndian(w))
  }

  /** The low 20 bytes of the word; the 12 high bytes are not checked, as in viem. */
  function ReadAddress(data: seq<Byte>, pos: nat): (r: Result<Address>)
    ensures r.Ok? <==> pos + WordSize <= |data|
    ensures r.Ok? ==> r.value == data[pos + 12..pos + WordSize]
  {
    var w :- ReadWord(data, pos);
    Ok(w[12..])
  }

  /** `count` consecutive words from `pos` on, as numbers. */
  function ReadUints(data: seq<Byte>, pos: nat, count: nat): (r: Result<seq<nat>>)
    ensures r.Ok? <==> count == 0 || pos + 32 * count <= |data|
    ensures r.Ok? ==> |r.value| == count
    decreases count
  {
    if count == 0 then Ok([])
    else
      var x :- ReadUint(data, pos);
      var rest :- ReadUints(data, pos + WordSize, count - 1);
      Ok([x] + rest)
  }

  /** The start of a dynamic argument's tail (its length word), from the offset in the
      head slot at `head`. */
  function Tail(data: seq<Byte>, head: nat): Result<nat> {
    ReadUint(data, head)
  }

  /** A `uint256[]` argument whose head slot is at `head`. */
  function ReadUintArray(data: seq<Byte>, head: nat): Result<seq<nat>> {
    var start :- Tail(data, head);
    var length :- ReadUint(data, start);
    ReadUints(data, start + WordSize, length)
  }

  /** A `bytes` argument whose head slot is at `head`. */
  function ReadBytes(data: seq<Byte>, head: nat): (r: Result<seq<Byte>>) {
    var start :- Tail(data, head);
    var length :- ReadUint(data, start);
    if start + WordSize + length <= |data| then Ok(data[start + WordSize..start + WordSize + length])
    else Err(OutOfBounds)
  }

  /** A `string` argument: its bytes, decoded by a non-fatal UTF-8 decoder. */
  function ReadString(data: seq<Byte>, head: nat): Result<string> {
    var b :- ReadBytes(data, head);
    Ok(Utf8.DecodeLossy(b))
  }

  // ---- Encoding, the partner of every reader above ----

  /** The low `k` bytes of `n`, big-endian. */
  function BigEndianBytes(n: nat, k: nat): (w: seq<Byte>)
    ensures |w| == k
  {
    if k == 0 then [] else BigEndianBytes(n / 256, k - 1) + [n % 256]
  }

  function UintWord(n: nat): (w: seq<Byte>)
    ensures |w| == WordSize
  {
    BigEndianBytes(n, WordSize)
  }

  function AddressWord(a: Address): (w: seq<Byte>)
    ensures |w| == WordSize
  {
    seq(12, _ => 0) + a
  }

  function UintWords(ns: seq<nat>): (w: seq<Byte>)
    ensures |w| == 32 * |ns|
  {
    if ns == [] then [] else UintWord(ns[0]) + UintWords(ns[1..])
  }

  /** Zero bytes that round `n` up to a whole number of words. */
  function Padding(n: nat): (z: seq<Byte>)
    ensures (n + |z|) % WordSize == 0 && |z| < WordSize
    ensures (WordSize + n + |z|) % WordSize == 0
  {
    var z := seq((WordSize - n % WordSize) % WordSize, _ => 0);
    WordAligned(n + |z|);
    z
  }

  /** The tail of a `uint256[]` argument: length word, then one word per element. */
  function UintArrayTail(ns: seq<nat>): (t: seq<Byte>)
    ensures |t| == WordSize + 32 * |ns| && |t| > |ns|
  {
    UintWord(|ns|) + UintWords(ns)
  }

  /** The tail of a `bytes` argument: length word, contents, zero padding. */
  function BytesTail(b: seq<Byte>): (t: seq<Byte>)
    ensures |t| % WordSize == 0 && |t| >= WordSize + |b|
  {
    UintWord(|b|) + b + Padding(|b|)
  }

  lemma WordAligned(n: nat)
    ensures (WordSize + n) % WordSize == n % WordSize
  {
  }

  lemma {:induction false} BigEndianRoundTrip(n: nat, k: nat)
    requires n < Pow256(k)
    ensures BigEndian(BigEndianBytes(n, k)) == n
  {
    if k > 0 {
      var w := BigEndianBytes(n, k);
      assert n / 256 < Pow256(k - 1);
      assert w[..|w| - 1] == BigEndianBytes(n / 256, k - 1);
      BigEndianRoundTrip(n / 256, k - 1);
    }
  }

  /** A `uint256` reads back from its word. */
  lemma UintRoundTrip(data: seq<Byte>, pos: nat, n: nat)
    requires n < WordRange
    requires pos + WordSize <= |data| && data[pos..pos + WordSize] == UintWord(n)
    ensures ReadUint(data, pos) == Ok(n)
  {
    WordRangeIsPow();
    BigEndianRoundTrip(n, WordSize);
  }

  /** An address reads back from its word. */
  lemma AddressRoundTrip(data: seq<Byte>, pos: nat, a: Address)
    requires pos + WordSize <= |data| && data[pos..pos + WordSize] == AddressWord(a)
    ensures ReadAddress(data, pos) == Ok(a)
  {
    assert data[pos + 12..pos + WordSize] == data[pos..pos + WordSize][12..];
  }

  lemma {:induction false} UintsRoundTrip(data: seq<Byte>, pos: nat, ns: seq<nat>)
    requires AllFit(ns)
    requires pos + 32 * |ns| <= |data| && data[pos..pos + 32 * |ns|] == UintWords(ns)
    ensures ReadUints(data, pos, |ns|) == Ok(ns)
    decreases |ns|
  {
    if ns != [] {
      var w, rest := UintWord(ns[0]), UintWords(ns[1..]);
      PairAt(data, pos, w, rest);
      UintRoundTrip(data, pos, ns[0]);
      UintsRoundTrip(data, pos + WordSize, ns[1..]);
      assert [ns[0]] + ns[1..] == ns;
    }
  }

  /** A `uint256[]` whose head slot at `head` holds the offset `start` of its tail. */
  lemma UintArrayRoundTrip(data: seq<Byte>, head: nat, start: nat, ns: seq<nat>)
    requires AllFit(ns) && |ns| < WordRange
    requires ReadUint(data, head) == Ok(start)
    requires start + |UintArrayTail(ns)| <= |data|
    requires data[start..start + |UintArrayTail(ns)|] == UintArrayTail(ns)
    ensures ReadUintArray(data, head) == Ok(ns)
  {
    var t := UintArrayTail(ns);
    var m := 32 * |ns|;
    assert data[start..start + WordSize] == t[..WordSize];
    UintRoundTrip(data, start, |ns|);
    assert data[start + WordSize..start + WordSize + m] == t[WordSize..];
    UintsRoundTrip(data, start + WordSize, ns);
  }

  /** A `bytes` argument whose head slot at `head` holds the offset `start` of its tail. */
  lemma BytesRoundTrip(data: seq<Byte>, head: nat, start: nat, b: seq<Byte>)
    requires |b| < WordRange
    requires ReadUint(data, head) == Ok(start)
    requires start + |BytesTail(b)| <= |data|
    requires data[start..start + |BytesTail(b)|] == BytesTail(b)
    ensures ReadBytes(data, head) == Ok(b)
  {
    var w, z := UintWord(|b|), Padding(|b|);
    assert BytesTail(b) == w + b + z;
    PartsAt(data, start, w, b, z);
    UintRoundTrip(data, start, |b|);
    ReadBytesAt(data, head, start, |b|);
  }

  /** What `ReadBytes` gives once the offset and the length words are known. */
  lemma ReadBytesAt(data: seq<Byte>, head: nat, start: nat, n: nat)
    requires ReadUint(data, head) == Ok(start) && ReadUint(data, start) == Ok(n)
    requires start + WordSize + n <= |data|
    ensures ReadBytes(data, head) == Ok(data[start + WordSize..start + WordSize + n])
  {
  }

  /** A `bytes` argument placed right after the head words and its own offset word, the
      offset being where the tail starts. */
  lemma BytesAfter(d: seq<Byte>, head: seq<Byte>, o: nat, b: seq<Byte>)
    requires o == |head| + WordSize && o < WordRange && |b| < WordRange
    requires d == head + UintWord(o) + BytesTail(b)
    ensures ReadBytes(d, |head|) == Ok(b)
  {
    Parts3(head, UintWord(o), BytesTail(b));
    UintRoundTrip(d, |head|, o);
    BytesRoundTrip(d, |head|, o, b);
  }

  /** Where `a + b` lies in `data`, so do `a` and `b`. */
  lemma PairAt<T>(data: seq<T>, start: nat, a: seq<T>, b: seq<T>)
    requires start + |a + b| <= |data| && data[start..start + |a + b|] == a + b
    ensures data[start..start + |a|] == a
    ensures data[start + |a|..start + |a| + |b|] == b
  {
    var n := |a + b|;
    assert data[start..start + |a|] == data[start..start + n][..|a|];
    assert data[start + |a|..start + |a| + |b|] == data[start..start + n][|a|..];
  }

  /** Where `a + b + c` lies in `data`, `a` and `b` lie at the start of it. */
  lemma PartsAt<T>(data: seq<T>, start: nat, a: seq<T>, b: seq<T>, c: seq<T>)
    requires start + |a + b + c| <= |data| && data[start..start + |a + b + c|] == a + b + c
    ensures data[start..start + |a|] == a
    ensures data[start + |a|..start + |a| + |b|] == b
  {
    var n := |a + b + c|;
    assert data[start..start + |a|] == data[start..start + n][..|a|];
    assert data[start + |a|..start + |a| + |b|] == data[start..start + n][|a|..|a| + |b|];
  }

  /** The slots of a sequence built from three parts. */
  lemma Parts3<T>(a: seq<T>, b: seq<T>, c: seq<T>)
    ensures (a + b + c)[..|a|] == a
    ensures (a + b + c)[|a|..|a| + |b|] == b
    ensures (a + b + c)[|a| + |b|..|a| + |b| + |c|] == c
  {
    var d := a + b + c;
    assert d[..|a|] == (a + b)[..|a|];
    assert d[|a|..|a| + |b|] == (a + b)[|a|..];
  }

  /** The slots of a sequence built from four parts. */
  lemma Parts4<T>(a: seq<T>, b: seq<T>, c: seq<T>, e: seq<T>)
    ensures (a + b + c + e)[..|a|] == a
    ensures (a + b + c + e)[|a|..|a| + |b|] == b
    ensures (a + b + c + e)[|a| + |b|..|a| + |b| + |c|] == c
    ensures (a + b + c + e)[|a| + |b| + |c|..|a| + |b| + |c| + |e|] == e
  {
    var d := a + b + c + e;
    Parts3(a, b, c);
    assert d[..|a + b + c|] == a + b + c;
    Within(d, |a + b + c|, 0, |a|);
    Within(d, |a + b + c|, |a|, |a| + |b|);
    Within(d, |a + b + c|, |a| + |b|, |a| + |b| + |c|);
  }

  /** A slot inside a prefix is the same slot of the whole. */
  lemma Within<T>(d: seq<T>, n: nat, i: nat, j: nat)
    requires i <= j <= n <= |d|
    ensures d[..n][i..j] == d[i..j]
  {
  }
}
