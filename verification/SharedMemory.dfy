/**
 * Publishing the session: two length-prefixed blocks in a page-rounded shared memory segment.
 * A byte is a char with code below 256; nothing here depends on the bound except the four bytes of a length.
 */
module SharedMemory {
  import opened Prelude
  import opened TextStreams
  import opened SessionFormat
  import opened SessionRoundTrip
  import opened SessionStreams

  const INT32_MAX := 0x7FFF_FFFF

  /** static_cast to a 32-bit signed integer */
  function ToInt32(n: int): (r: int)
    ensures -0x8000_0000 <= r <= INT32_MAX
    ensures r == n <==> -0x8000_0000 <= n <= INT32_MAX
    ensures n >= 0 ==> r <= n
    ensures (n - r) % 0x1_0000_0000 == 0
  {
    (n + 0x8000_0000) % 0x1_0000_0000 - 0x8000_0000
  }

  function Byte(n: nat): char
    requires n < 256
  {
    n as char
  }

  /** A 32-bit word as it lies in memory, least significant byte first. */
  function WordBytes(u: nat): (s: string)
    requires u < 0x1_0000_0000
    ensures |s| == 4
  {
    var v := u / 0x100;
    var w := v / 0x100;
    [Byte(u % 0x100), Byte(v % 0x100), Byte(w % 0x100), Byte(w / 0x100)]
  }

  function WordValue(s: string): nat
    requires |s| == 4
  {
    s[0] as nat + 0x100 * (s[1] as nat + 0x100 * (s[2] as nat + 0x100 * s[3] as nat))
  }

  lemma WordRoundTrip(u: nat)
    requires u < 0x1_0000_0000
    ensures WordValue(WordBytes(u)) == u
  {
    var v := u / 0x100;
    var w := v / 0x100;
    assert u == u % 0x100 + 0x100 * v;
    assert v == v % 0x100 + 0x100 * w;
    assert w == w % 0x100 + 0x100 * (w / 0x100);
  }

  function Int32Bytes(n: int): (s: string)
    requires -0x8000_0000 <= n <= INT32_MAX
    ensures |s| == 4
  {
    WordBytes(n % 0x1_0000_0000)
  }

  function Int32Value(s: string): int
    requires |s| == 4
  {
    ToInt32(WordValue(s))
  }

  lemma Int32RoundTrip(n: int)
    requires -0x8000_0000 <= n <= INT32_MAX
    ensures Int32Value(Int32Bytes(n)) == n
  {
    hide WordBytes, WordValue;
    WordRoundTrip(n % 0x1_0000_0000);
  }

  /** The shared memory allocator: a bump pointer into one segment. */
  class ShmAllocator {
    const base: array<char>
    var currOffset: int

    constructor (pages: nat, pageSize: nat)
      ensures base.Length == pages * pageSize && currOffset == 0 && fresh(base)
    {
      base := new char[pages * pageSize];
      currOffset := 0;
    }

    /** The offset of the new block, or None where shared_mem_exception is thrown. */
    method Alloc(size: nat) returns (block: Option<int>)
      modifies this
      ensures if old(currOffset) + size <= base.Length
              then block == Some(old(currOffset)) && currOffset == ToInt32(old(currOffset) + size)
              else block == None && currOffset == old(currOffset)
    {
      var newOffset := currOffset + size;
      if newOffset > base.Length {
        return None;
      }
      block := Some(currOffset);
      currOffset := ToInt32(newOffset);
    }

    /** Copies text into the segment; the caller owes that it fits. */
    method Write(pos: nat, text: string)
      requires pos + |text| <= base.Length
      modifies base
      ensures base[..] == old(base[..pos]) + text + old(base[pos + |text|..])
    {
      var i := 0;
      while i < |text|
        invariant 0 <= i <= |text|
        invariant base[..pos + i] == old(base[..pos]) + text[..i]
        invariant base[pos + i..] == old(base[pos + i..])
      {
        base[pos + i] := text[i];
        i := i + 1;
      }
    }
  }

  function RequiredSize(info: string, session: string): nat {
    4 + |info| + 4 + |session|
  }

  function Pages(size: nat, pageSize: nat): nat
    requires pageSize > 0
  {
    if size % pageSize != 0 then size / pageSize + 1 else size / pageSize
  }

  /** The page count is the least one that suffices. */
  lemma PagesSuffice(size: nat, pageSize: nat)
    requires pageSize > 0
    ensures size <= Pages(size, pageSize) * pageSize < size + pageSize
    ensures forall n: nat :: size <= n * pageSize <==> Pages(size, pageSize) <= n
  {
    var q, pages := size / pageSize, Pages(size, pageSize);
    assert size == q * pageSize + size % pageSize;
    assert (q + 1) * pageSize == q * pageSize + pageSize;
    forall n: nat
      ensures size <= n * pageSize <==> pages <= n
    {
      if pages <= n {
        Times(pages, n, pageSize);
      } else {
        Times(n + 1, pages, pageSize);
        assert (n + 1) * pageSize == n * pageSize + pageSize;
      }
    }
  }

  lemma Times(a: nat, b: nat, c: nat)
    requires a <= b
    ensures a * c <= b * c
  {
    assert (b - a) * c >= 0;
  }

  /** The two blocks, each behind its length, at the front of the segment. */
  ghost predicate Framed(mem: string, info: string, session: string) {
    && |info| <= INT32_MAX
    && RequiredSize(info, session) <= |mem|
    && mem[..RequiredSize(info, session)] == Int32Bytes(|info|) + info + Int32Bytes(ToInt32(|session|)) + session
  }

  /**
   * Lays the dispatch info (a Java byte array, so of int length) and the serialized session out in a fresh segment.
   * This succeeds exactly if the page count is an int; then the allocation does not throw and every write stays inside
   * the segment. Otherwise the truncated count fails the assertion of a positive one, or the segment is too small and
   * the allocation throws.
   */
  method Publish(info: string, session: string, pageSize: nat) returns (shm: Option<ShmAllocator>)
    requires pageSize > 0 && |info| <= INT32_MAX
    ensures shm.Some? <==> Pages(RequiredSize(info, session), pageSize) <= INT32_MAX
    ensures shm.Some? ==> fresh(shm.value) && fresh(shm.value.base) && Framed(shm.value.base[..], info, session)
    ensures shm.Some? ==> shm.value.base.Length < RequiredSize(info, session) + pageSize
  {
    var required := RequiredSize(info, session);
    var pgs := ToInt32(required / pageSize);
    var rem := required % pageSize;
    if rem != 0 {
      pgs := ToInt32(pgs + 1);
    }
    PagesSuffice(required, pageSize);
    if pgs <= 0 {
      return None;
    }
    var alloc := new ShmAllocator(pgs, pageSize);
    var block := alloc.Alloc(required);
    if block == None {
      return None;
    }
    PutBlocks(alloc, block.value, info, session);
    shm := Some(alloc);
  }

  /** The writes through the moving pointer. */
  method PutBlocks(shm: ShmAllocator, block: int, info: string, session: string)
    requires block == 0 && |info| <= INT32_MAX && RequiredSize(info, session) <= shm.base.Length
    modifies shm.base
    ensures Framed(shm.base[..], info, session)
  {
    var pos := block;
    shm.Write(pos, Int32Bytes(|info|));
    pos := pos + 4;
    shm.Write(pos, info);
    pos := pos + |info|;
    shm.Write(pos, Int32Bytes(ToInt32(|session|)));
    pos := pos + 4;
    shm.Write(pos, session);
  }

  /** Where the session lies and how long it is, by the same offsets the reader computes. */
  method GetSessionStateBufInfo(mem: array<char>, ghost info: string, ghost session: string)
      returns (pos: int, size: int)
    requires Framed(mem[..], info, session)
    ensures 0 <= pos && pos + |session| <= mem.Length && mem[pos..pos + |session|] == session
    ensures size == ToInt32(|session|) && (size == |session| <==> |session| <= INT32_MAX)
  {
    ghost var n := RequiredSize(info, session);
    ghost var m := mem[..n];
    assert m[..4] == Int32Bytes(|info|) == mem[0..4];
    assert m[4 + |info|..8 + |info|] == Int32Bytes(ToInt32(|session|)) == mem[4 + |info|..8 + |info|];
    assert m[8 + |info|..n] == session == mem[8 + |info|..n];
    Int32RoundTrip(|info|);
    Int32RoundTrip(ToInt32(|session|));
    pos := 0;
    var blockSize := Int32Value(mem[pos..pos + 4]);
    pos := pos + 4 + blockSize;
    blockSize := Int32Value(mem[pos..pos + 4]);
    pos := pos + 4;
    size := blockSize;
  }

  /**
   * Publishing and reading back. Nothing is read if the segment is not made, or if the size that the text has as an int
   * is negative, so that the buffer would end before it begins. Otherwise the session is extracted from as much of its
   * text as that size says; and if that is all of it, the whole way is the identity on the information of the session
   * (an empty vector and an absent one being the same) exactly when the session is clean.
   */
  method PublishAndGet(ss: SessionState, info: string, pageSize: nat) returns (copy: Option<SessionState>)
    requires pageSize > 0 && |info| <= INT32_MAX
    requires Representable(ss.Info())
    ensures var text := Printed(ss.Info());
            && (copy.Some? <==> Pages(RequiredSize(info, text), pageSize) <= INT32_MAX && ToInt32(|text|) >= 0)
            && (copy.Some? ==>
               fresh(copy.value) &&
               copy.value.Info() == ReadSession(Fresh(text[..ToInt32(|text|)]), FRESH).1)
            && (copy.Some? && |text| <= INT32_MAX ==>
               (copy.value.Info() == Restored(FRESH, ss.Info()) <==> Clean(ss.Info())))
  {
    hide Representable, Clean, Restored, ReadSession, SessionTokens, Text, Framed, Pages;
    var text := Serialize(ss);
    var shm := Publish(info, text, pageSize);
    if shm == None {
      return None;
    }
    var mem := shm.value.base;
    var pos, size := GetSessionStateBufInfo(mem, info, text);
    if size < 0 {
      return None;
    }
    Inside(mem[..], pos, |text|, size);
    assert mem[pos..pos + size] == mem[..][pos..pos + size] && mem[pos..pos + |text|] == mem[..][pos..pos + |text|];
    var strm := new IStream(mem[pos..pos + size]);
    var session := new SessionState();
    session.ReadFrom(strm);
    copy := Some(session);
    if |text| <= INT32_MAX {
      assert text[..size] == text && text + [] == text;
      RestoredIff(ss.Info(), []);
    }
  }

  lemma Inside(s: string, pos: nat, n: nat, k: nat)
    requires pos + n <= |s| && k <= n
    ensures s[pos..pos + k] == s[pos..pos + n][..k]
  {
  }

  /** serialize_session_state_to_membuf */
  method Serialize(ss: SessionState) returns (text: string)
    ensures text == Printed(ss.Info())
  {
    hide SessionTokens, Text;
    var strm := new OStream();
    ss.PrintTo(strm);
    assert [] + SessionTokens(ss.Info()) == SessionTokens(ss.Info());
    text := strm.text;
  }
}
