// The avatar's zlib stream of stored blocks (mastomini_rs/src/avatar.rs), and a reader of such streams
// written from RFC 1950 and RFC 1951.
module ZlibStored {
  import opened Options

  type Byte = b: nat | b < 256

  const BLOCK: nat := 0xffff
  const MODULUS: nat := 65521

  // ---------------------------------------------------------------------------
  // The standards
  // ---------------------------------------------------------------------------

  datatype Inflated = Inflated(data: seq<Byte>, rest: seq<Byte>)

  /** A stored block's header: its flag and its length. */
  datatype Header = Header(last: bool, length: nat)

  /** The type bits are 00, and the length is followed by its complement, low bytes first. */
  function ReadHeader(flags: nat, low: nat, high: nat, notLow: nat, notHigh: nat): Option<Header> {
    var length := low + 256 * high;
    if flags / 2 % 4 != 0 || length + (notLow + 256 * notHigh) != 0xffff then None
    else Some(Header(flags % 2 == 1, length))
  }

  /** Stored blocks (RFC 1951 section 3.2.4) up to the final one, and what follows it. */
  function Inflate(s: seq<Byte>): Option<Inflated>
    decreases |s|
  {
    var header := if |s| < 5 then None else ReadHeader(s[0], s[1], s[2], s[3], s[4]);
    if header.None? || |s| < 5 + header.value.length then None
    else
      var end := 5 + header.value.length;
      if header.value.last then Some(Inflated(s[5..end], s[end..]))
      else match Inflate(s[end..])
        case Some(more) => Some(Inflated(s[5..end] + more.data, more.rest))
        case None => None
  }

  function Sum(data: seq<Byte>): nat {
    if data == [] then 0 else Sum(data[..|data| - 1]) + data[|data| - 1]
  }

  /** The sum of `1 + Sum(p)` over the non-empty prefixes `p`. */
  function SumOfSums(data: seq<Byte>): nat {
    if data == [] then 0 else SumOfSums(data[..|data| - 1]) + 1 + Sum(data)
  }

  /** Adler-32 (RFC 1950 section 2.2). */
  function Adler32(data: seq<Byte>): nat {
    SumOfSums(data) % MODULUS * 0x10000 + (1 + Sum(data)) % MODULUS
  }

  /** The number some bytes spell, high bytes first. */
  function Spelled(s: seq<Byte>): nat {
    if s == [] then 0 else Spelled(s[..|s| - 1]) * 256 + s[|s| - 1]
  }

  /** CM 8, a window of at most 32K, check bits right and no dictionary. */
  predicate ReadableStart(cmf: nat, flags: nat) {
    cmf % 16 == 8 && cmf / 16 <= 7 && (cmf * 256 + flags) % 31 == 0 && flags / 32 % 2 == 0
  }

  /** A stream with a start, deflated data and four bytes of checksum. */
  function UnzipBy(checksum: seq<Byte> -> nat, s: seq<Byte>): Option<seq<Byte>> {
    if |s| < 2 || !ReadableStart(s[0], s[1]) then None
    else match Inflate(s[2..])
      case Some(found) =>
        if |found.rest| == 4 && Spelled(found.rest) == checksum(found.data) then Some(found.data) else None
      case None => None
  }

  /** A zlib stream (RFC 1950 section 2.2). */
  function Unzip(s: seq<Byte>): Option<seq<Byte>> {
    UnzipBy(Adler32, s)
  }

  // ---------------------------------------------------------------------------
  // The writer
  // ---------------------------------------------------------------------------

  function Chunks(data: seq<Byte>): (blocks: seq<seq<Byte>>)
    ensures blocks == [] <==> data == []
    ensures forall block :: block in blocks ==> |block| <= BLOCK
  {
    if data == [] then []
    else if |data| <= BLOCK then [data]
    else [data[..BLOCK]] + Chunks(data[BLOCK..])
  }

  /** The header of a block of some length, and the block. */
  function Start(length: nat, last: bool): (s: seq<Byte>)
    ensures |s| == 5
  {
    var n := length % 0x10000;
    [if last then 1 else 0, n % 256, n / 256, (0xffff - n) % 256, (0xffff - n) / 256]
  }

  function StoredBlock(block: seq<Byte>, last: bool): seq<Byte> {
    Start(|block|, last) + block
  }

  /** The blocks, the last one marked. */
  function StoredBlocks(blocks: seq<seq<Byte>>): seq<Byte> {
    if blocks == [] then [] else StoredBlock(blocks[0], |blocks| == 1) + StoredBlocks(blocks[1..])
  }

  /** The lowest `width` bytes of a number, high bytes first. */
  function BigEndian(n: nat, width: nat): (s: seq<Byte>)
    ensures |s| == width
  {
    if width == 0 then [] else BigEndian(n / 256, width - 1) + [n % 256]
  }

  function Framed(blocks: seq<seq<Byte>>, checksum: nat): seq<Byte> {
    [0x78, 0x01] + StoredBlocks(blocks) + BigEndian(checksum, 4)
  }

  method Zip(data: seq<Byte>) returns (out: seq<Byte>)
    ensures out == Framed(Chunks(data), Adler32(data))
  {
    out := [0x78, 0x01];
    var blocks := Chunks(data);
    for i := 0 to |blocks|
      invariant out + StoredBlocks(blocks[i..]) == [0x78, 0x01] + StoredBlocks(blocks)
    {
      StoredBlocksFrom(blocks, i);
      JoinThree(out, StoredBlock(blocks[i], i + 1 == |blocks|), StoredBlocks(blocks[i + 1..]));
      JoinThree(out, Start(|blocks[i]|, i + 1 == |blocks|), blocks[i]);
      out := out + Start(|blocks[i]|, i + 1 == |blocks|) + blocks[i];
    }
    var sum := Checksum(data);
    out := out + BigEndian(sum, 4);
  }

  method Checksum(data: seq<Byte>) returns (sum: nat)
    ensures sum == Adler32(data)
  {
    var a, b := 1, 0;
    for i := 0 to |data|
      invariant a == (1 + Sum(data[..i])) % MODULUS && b == SumOfSums(data[..i]) % MODULUS
    {
      SumsNext(data, i);
      Reduced(1 + Sum(data[..i]), data[i]);
      a := (a + data[i]) % MODULUS;
      Reduced(SumOfSums(data[..i]), a);
      Reduced(1 + Sum(data[..i + 1]), SumOfSums(data[..i]));
      b := (b + a) % MODULUS;
    }
    assert data[..|data|] == data;
    return b * 0x10000 + a;
  }

  lemma SumsNext(data: seq<Byte>, i: nat)
    requires i < |data|
    ensures Sum(data[..i + 1]) == Sum(data[..i]) + data[i]
    ensures SumOfSums(data[..i + 1]) == SumOfSums(data[..i]) + 1 + Sum(data[..i + 1])
  {
    assert data[..i + 1][..i] == data[..i];
  }

  lemma Reduced(x: nat, y: nat)
    ensures (x % MODULUS + y) % MODULUS == (x + y) % MODULUS
  {
  }

  lemma StoredBlocksFrom(blocks: seq<seq<Byte>>, i: nat)
    requires i < |blocks|
    ensures StoredBlocks(blocks[i..]) == StoredBlock(blocks[i], i + 1 == |blocks|) + StoredBlocks(blocks[i + 1..])
  {
    assert blocks[i..][1..] == blocks[i + 1..];
  }

  // ---------------------------------------------------------------------------
  // Reading back what was written
  // ---------------------------------------------------------------------------

  function Joined(blocks: seq<seq<Byte>>): seq<Byte> {
    if blocks == [] then [] else blocks[0] + Joined(blocks[1..])
  }

  lemma {:induction false} ChunksJoin(data: seq<Byte>)
    ensures Joined(Chunks(data)) == data
  {
    if |data| > BLOCK {
      ChunksJoin(data[BLOCK..]);
      assert data == data[..BLOCK] + data[BLOCK..];
    }
  }

  lemma StartReads(length: nat, last: bool)
    requires length <= BLOCK
    ensures var s := Start(length, last); ReadHeader(s[0], s[1], s[2], s[3], s[4]) == Some(Header(last, length))
  {
    assert length % 256 + 256 * (length / 256) == length;
    assert (0xffff - length) % 256 + 256 * ((0xffff - length) / 256) == 0xffff - length;
  }

  lemma InflateBlock(start: seq<Byte>, block: seq<Byte>, last: bool, rest: seq<Byte>)
    requires |start| == 5
    requires ReadHeader(start[0], start[1], start[2], start[3], start[4]) == Some(Header(last, |block|))
    ensures Inflate((start + block) + rest)
         == if last then Some(Inflated(block, rest))
            else match Inflate(rest)
              case Some(more) => Some(Inflated(block + more.data, more.rest))
              case None => None
  {
    var s := (start + block) + rest;
    assert s[5..5 + |block|] == block && s[5 + |block|..] == rest;
  }

  lemma {:induction false} InflateBlocks(blocks: seq<seq<Byte>>, rest: seq<Byte>)
    requires blocks != [] && forall block :: block in blocks ==> |block| <= BLOCK
    ensures Inflate(StoredBlocks(blocks) + rest) == Some(Inflated(Joined(blocks), rest))
  {
    var last := |blocks| == 1;
    StartReads(|blocks[0]|, last);
    InflateBlock(Start(|blocks[0]|, last), blocks[0], last, StoredBlocks(blocks[1..]) + rest);
    JoinThree(StoredBlock(blocks[0], last), StoredBlocks(blocks[1..]), rest);
    if last {
      assert StoredBlocks(blocks[1..]) + rest == rest && Joined(blocks) == blocks[0];
    } else {
      InflateBlocks(blocks[1..], rest);
    }
  }

  lemma JoinThree(a: seq<Byte>, b: seq<Byte>, c: seq<Byte>)
    ensures (a + b) + c == a + (b + c)
  {
  }

  function Pow256(n: nat): nat {
    if n == 0 then 1 else 256 * Pow256(n - 1)
  }

  lemma {:induction false} BigEndianReads(n: nat, width: nat)
    requires n < Pow256(width)
    ensures Spelled(BigEndian(n, width)) == n
  {
    if width > 0 {
      BigEndianReads(n / 256, width - 1);
      assert BigEndian(n, width)[..width - 1] == BigEndian(n / 256, width - 1);
    }
  }

  lemma FramedParts(blocks: seq<Byte>, sum: seq<Byte>)
    ensures var s: seq<Byte> := [0x78, 0x01] + blocks + sum; s[0] == 0x78 && s[1] == 1 && s[2..] == blocks + sum
  {
  }

  lemma FourBytesRead(n: nat)
    requires n < 0x1_0000_0000
    ensures Spelled(BigEndian(n, 4)) == n
  {
    assert Pow256(2) == 0x10000 && Pow256(4) == 0x1_0000_0000;
    BigEndianReads(n, 4);
  }

  lemma UnzipInflated(checksum: seq<Byte> -> nat, s: seq<Byte>, data: seq<Byte>, sum: seq<Byte>)
    requires |s| >= 2 && s[0] == 0x78 && s[1] == 1 && Inflate(s[2..]) == Some(Inflated(data, sum))
    requires |sum| == 4 && Spelled(sum) == checksum(data)
    ensures UnzipBy(checksum, s) == Some(data)
  {
  }

  lemma UnzipFramed(checksum: seq<Byte> -> nat, blocks: seq<seq<Byte>>)
    requires checksum(Joined(blocks)) < 0x1_0000_0000
    requires forall block :: block in blocks ==> |block| <= BLOCK
    ensures UnzipBy(checksum, Framed(blocks, checksum(Joined(blocks))))
         == if blocks == [] then None else Some(Joined(blocks))
  {
    var n := checksum(Joined(blocks));
    var sum := BigEndian(n, 4);
    FramedParts(StoredBlocks(blocks), sum);
    if blocks != [] {
      FourBytesRead(n);
      InflateBlocks(blocks, sum);
      UnzipInflated(checksum, Framed(blocks, n), Joined(blocks), sum);
    }
  }

  /** Reading gives back the data, with nothing left after the one final block but the checksum. No data has no
      final block, and cannot be read. */
  lemma UnzipUndoesZip(data: seq<Byte>)
    ensures Unzip(Framed(Chunks(data), Adler32(data))) == if data == [] then None else Some(data)
  {
    ChunksJoin(data);
    UnzipFramed(Adler32, Chunks(data));
  }
}
