/** The packet header of the simulated RaptorQ code: ns3_apps/rq-header.cc. */
module Header {
  import opened Words

  const MAGIC: UInt32 := 0x5271480d
  const MIN_SIZE: nat := 20   // magic, sequence number, stream id, number of counts

  type Bytes = seq<Byte>

  /** What a valid header carries. */
  datatype Header = Header(seqno: UInt64, streamid: Int32, iseq: seq<Int32>)

  /** Outcome of reading a header: past the end of the data, not a header, or a header. */
  datatype Parsed = PastEnd | BadMagic | Good(h: Header, size: nat)

  // --- specification: the byte layout ---

  /** A number in network order. */
  function BigEndian(b: Bytes): nat {
    if b == [] then 0 else BigEndian(b[..|b| - 1]) * 0x100 + b[|b| - 1] as int
  }

  lemma BigEndian4(b: Bytes)
    requires |b| == 4
    ensures BigEndian(b) == b[0] as int * 0x100_0000 + b[1] as int * 0x1_0000 + b[2] as int * 0x100 + b[3] as int
  {
    assert b[..3][..2] == b[..2] && b[..2][..1] == b[..1] && b[..1][..0] == [];
    assert BigEndian(b[..1]) == b[0];
    assert BigEndian(b[..2]) == b[0] as int * 0x100 + b[1];
  }

  /** Numbers of the same length differ in some byte. */
  lemma {:induction false} BigEndianUnique(b: Bytes, c: Bytes)
    requires |b| == |c| && BigEndian(b) == BigEndian(c)
    ensures b == c
  {
    if b != [] {
      BigEndianUnique(b[..|b| - 1], c[..|c| - 1]);
      assert b == b[..|b| - 1] + [b[|b| - 1]] && c == c[..|c| - 1] + [c[|c| - 1]];
    }
  }

  /** The bytes the shifts and masks of the buffer iterator produce. */
  function Shifted(x: UInt32): (b: Bytes)
    ensures |b| == 4 && BigEndian(b) == x
  {
    var q, r, s := x / 0x100, x / 0x1_0000, x / 0x100_0000;
    assert r == q / 0x100 && s == r / 0x100;
    BigEndian4([s, r % 0x100, q % 0x100, x % 0x100]);
    [s, r % 0x100, q % 0x100, x % 0x100]
  }

  /** The four bytes of value x. */
  ghost function U32Bytes(x: UInt32): (b: Bytes)
    ensures |b| == 4 && BigEndian(b) == x
  {
    assert |Shifted(x)| == 4;
    var b: Bytes :| |b| == 4 && BigEndian(b) == x;
    b
  }

  function U32At(b: Bytes, i: nat): UInt32
    requires i + 4 <= |b|
  {
    BigEndian4(b[i..i + 4]);
    BigEndian(b[i..i + 4])
  }

  /** Four more bytes. */
  lemma BigEndianAppend4(a: Bytes, b: Bytes)
    requires |b| == 4
    ensures BigEndian(a + b) == BigEndian(a) * TWO_32 + BigEndian(b)
  {
    var w := a + b;
    BigEndian4(b);
    assert w[..|w| - 1] == a + b[..3] && (a + b[..3])[..|a| + 2] == a + b[..2];
    assert (a + b[..2])[..|a| + 1] == a + b[..1] && (a + b[..1])[..|a|] == a;
    assert BigEndian(a + b[..1]) == BigEndian(a) * 0x100 + b[0];
    assert BigEndian(a + b[..2]) == BigEndian(a + b[..1]) * 0x100 + b[1];
    assert BigEndian(a + b[..3]) == BigEndian(a + b[..2]) * 0x100 + b[2];
  }

  ghost function U64Bytes(x: UInt64): (b: Bytes)
    ensures |b| == 8 && BigEndian(b) == x
  {
    BigEndianAppend4(U32Bytes(x / TWO_32), U32Bytes(x % TWO_32));
    U32Bytes(x / TWO_32) + U32Bytes(x % TWO_32)
  }

  function U64At(b: Bytes, i: nat): UInt64
    requires i + 8 <= |b|
  {
    U32At(b, i) * TWO_32 + U32At(b, i + 4)
  }

  ghost function CountBytes(c: seq<Int32>): (b: Bytes)
    ensures |b| == 4 * |c|
  {
    if c == [] then [] else CountBytes(c[..|c| - 1]) + U32Bytes(ToUInt32(c[|c| - 1]))
  }

  function CountsAt(b: Bytes, i: nat, n: nat): (c: seq<Int32>)
    requires i + 4 * n <= |b|
    ensures |c| == n
  {
    if n == 0 then [] else CountsAt(b, i, n - 1) + [ToInt32(U32At(b, i + 4 * (n - 1)))]
  }

  lemma CountBytesStep(c: seq<Int32>, j: nat)
    requires j < |c|
    ensures CountBytes(c[..j + 1]) == CountBytes(c[..j]) + U32Bytes(ToUInt32(c[j]))
  {
    assert c[..j + 1][..j] == c[..j];
  }

  function SerializedSize(h: Header): nat {
    MIN_SIZE + 4 * |h.iseq|
  }

  ghost function Encode(h: Header): (b: Bytes)
    ensures |b| == SerializedSize(h)
  {
    U32Bytes(MAGIC) + U64Bytes(h.seqno) + U32Bytes(ToUInt32(h.streamid))
    + U32Bytes(ToUInt32(|h.iseq|)) + CountBytes(h.iseq)
  }

  /** The number of counts announced by the word at i; a negative announcement announces none. */
  function Announced(b: Bytes, i: nat): nat
    requires i + 4 <= |b|
  {
    var n := ToInt32(U32At(b, i));
    if n < 0 then 0 else n
  }

  /** Reading a header from position p of a buffer. */
  function ParseAt(b: Bytes, p: nat): Parsed {
    if |b| < p + 4 then PastEnd
    else if U32At(b, p) != MAGIC then BadMagic
    else if |b| < p + MIN_SIZE || |b| < p + MIN_SIZE + 4 * Announced(b, p + 16) then PastEnd
    else
      var h := Header(U64At(b, p + 4), ToInt32(U32At(b, p + 12)), CountsAt(b, p + MIN_SIZE, Announced(b, p + 16)));
      Good(h, SerializedSize(h))
  }

  function Parse(b: Bytes): Parsed {
    ParseAt(b, 0)
  }

  // --- the round trip ---

  lemma U32RoundTrip(x: UInt32, b: Bytes, i: nat)
    requires i + 4 <= |b| && b[i..i + 4] == U32Bytes(x)
    ensures U32At(b, i) == x
  {
  }

  lemma U64RoundTrip(x: UInt64, b: Bytes, i: nat)
    requires i + 8 <= |b| && b[i..i + 8] == U64Bytes(x)
    ensures U64At(b, i) == x
  {
    Halves(b[i..i + 8], U32Bytes(x / TWO_32), U32Bytes(x % TWO_32), b, i);
    U32RoundTrip(x / TWO_32, b, i);
    U32RoundTrip(x % TWO_32, b, i + 4);
  }

  lemma Halves(w: Bytes, u: Bytes, v: Bytes, b: Bytes, i: nat)
    requires i + |w| <= |b| && w == b[i..i + |w|] == u + v
    ensures b[i..i + |u|] == u && b[i + |u|..i + |w|] == v
  {
    assert u == w[..|u|] && v == w[|u|..];
  }

  lemma SignRoundTrip(x: Int32)
    ensures ToInt32(ToUInt32(x)) == x
  {
  }

  lemma {:induction false} CountsRoundTrip(c: seq<Int32>, b: Bytes, i: nat)
    requires i + 4 * |c| <= |b| && b[i..i + 4 * |c|] == CountBytes(c)
    ensures CountsAt(b, i, |c|) == c
  {
    if c != [] {
      var k := |c| - 1;
      WordAfter(CountBytes(c[..k]), ToUInt32(c[k]), b, i);
      CountsRoundTrip(c[..k], b, i);
      SignRoundTrip(c[k]);
      assert c == c[..k] + [c[k]];
    }
  }

  lemma WordAfter(head: Bytes, x: UInt32, b: Bytes, i: nat)
    requires i + |head| + 4 <= |b| && b[i..i + |head| + 4] == head + U32Bytes(x)
    ensures b[i..i + |head|] == head && U32At(b, i + |head|) == x
  {
    Halves(head + U32Bytes(x), head, U32Bytes(x), b, i);
  }

  lemma {:induction false} CountAt(c: seq<Int32>, j: nat)
    requires j < |c|
    ensures BigEndian(CountBytes(c)[4 * j..4 * j + 4]) == ToUInt32(c[j])
  {
    var k := |c| - 1;
    var b := CountBytes(c);
    assert b == CountBytes(c[..k]) + U32Bytes(ToUInt32(c[k]));
    if j < k {
      CountAt(c[..k], j);
      assert b[4 * j..4 * j + 4] == CountBytes(c[..k])[4 * j..4 * j + 4];
    } else {
      assert b[4 * j..4 * j + 4] == U32Bytes(ToUInt32(c[k]));
    }
  }

  /** Where the fields of a serialized header are: magic number, number, stream, and the counts behind their count. */
  lemma Layout(h: Header)
    ensures var b := Encode(h);
            && |b| == 20 + 4 * |h.iseq|
            && BigEndian(b[..4]) == MAGIC && BigEndian(b[4..12]) == h.seqno
            && BigEndian(b[12..16]) == ToUInt32(h.streamid) && BigEndian(b[16..20]) == ToUInt32(|h.iseq|)
            && forall j :: 0 <= j < |h.iseq| ==> BigEndian(b[20 + 4 * j..24 + 4 * j]) == ToUInt32(h.iseq[j])
  {
    var b := Encode(h);
    assert b[..4] == U32Bytes(MAGIC) && b[4..12] == U64Bytes(h.seqno);
    assert b[12..16] == U32Bytes(ToUInt32(h.streamid)) && b[16..20] == U32Bytes(ToUInt32(|h.iseq|));
    forall j | 0 <= j < |h.iseq|
      ensures BigEndian(b[20 + 4 * j..24 + 4 * j]) == ToUInt32(h.iseq[j])
    {
      CountAt(h.iseq, j);
      assert b[20 + 4 * j..24 + 4 * j] == CountBytes(h.iseq)[4 * j..4 * j + 4];
    }
  }

  /**
   * Whatever payload follows it, a serialized header is read back unchanged, negative
   * stream id included, and exactly its own bytes are consumed.
   */
  lemma RoundTrip(h: Header, payload: Bytes)
    requires |h.iseq| < TWO_31
    ensures Parse(Encode(h) + payload) == Good(h, SerializedSize(h))
  {
    var b := Encode(h) + payload;
    var id, n := ToUInt32(h.streamid), ToUInt32(|h.iseq|);
    U32RoundTrip(MAGIC, b, 0);
    U64RoundTrip(h.seqno, b, 4);
    U32RoundTrip(id, b, 12);
    U32RoundTrip(n, b, 16);
    CountsRoundTrip(h.iseq, b, 20);
    SignRoundTrip(h.streamid);
    SignRoundTrip(|h.iseq|);
  }

  /** Counts enter the header as unsigned words but are kept as signed ones. */
  function FromCounts(seqno: UInt64, streamid: Int32, counts: seq<UInt32>): Header {
    Header(seqno, streamid, seq(|counts|, i requires 0 <= i < |counts| => ToInt32(counts[i])))
  }

  lemma SignedCountsIff(seqno: UInt64, streamid: Int32, counts: seq<UInt32>)
    ensures var h := FromCounts(seqno, streamid, counts);
            h.iseq == counts <==> forall i :: 0 <= i < |counts| ==> counts[i] < TWO_31
  {
  }

  /** The receiver sees the sender's counts exactly when all of them are below 2^31. */
  lemma CountsSurviveIff(seqno: UInt64, streamid: Int32, counts: seq<UInt32>, payload: Bytes, p: Parsed)
    requires |counts| < TWO_31
    requires p == Parse(Encode(FromCounts(seqno, streamid, counts)) + payload)
    ensures p.Good? && p.h.seqno == seqno && p.h.streamid == streamid
    ensures p.h.iseq == counts <==> forall i :: 0 <= i < |counts| ==> counts[i] < TWO_31
  {
    RoundTrip(FromCounts(seqno, streamid, counts), payload);
    SignedCountsIff(seqno, streamid, counts);
  }

  /** What the one-argument constructor makes of a sequence number: it drops it. */
  function NullHeader(seqno: UInt64): Header {
    Header(0, 0, [])
  }

  /**
   * A header from the one-argument constructor is marked invalid but goes out with the magic
   * word, so it arrives as a valid one; its number arrives if and only if it was 0.
   */
  lemma NullHeaderArrives(seqno: UInt64, payload: Bytes, p: Parsed)
    requires p == Parse(Encode(NullHeader(seqno)) + payload)
    ensures p.Good? && p.size == MIN_SIZE && p.h.iseq == [] && p.h.streamid == 0
    ensures p.h.seqno == seqno <==> seqno == 0
  {
    RoundTrip(NullHeader(seqno), payload);
  }

  // --- the header class, over a byte buffer ---

  /** The data with w written over it at p. */
  ghost function Splice(data: Bytes, p: nat, w: Bytes): (r: Bytes)
    requires p + |w| <= |data|
    ensures |r| == |data|
  {
    data[..p] + w + data[p + |w|..]
  }

  lemma SpliceTwice(data: Bytes, p: nat, v: Bytes, w: Bytes)
    requires p + |v| + |w| <= |data|
    ensures Splice(Splice(data, p, v), p + |v|, w) == Splice(data, p, v + w)
  {
  }

  /** Read and write position in a buffer; numbers are in network order. */
  class Iterator {
    const data: array<Byte>
    var pos: nat

    constructor (data: array<Byte>, pos: nat)
      ensures this.data == data && this.pos == pos
    {
      this.data, this.pos := data, pos;
    }

    method WriteHtonU32(x: UInt32)
      requires pos + 4 <= data.Length
      modifies this`pos, data
      ensures pos == old(pos) + 4
      ensures data[..] == Splice(old(data[..]), old(pos), U32Bytes(x))
    {
      var b := Shifted(x);
      data[pos], data[pos + 1], data[pos + 2], data[pos + 3] := b[0], b[1], b[2], b[3];
      pos := pos + 4;
      BigEndianUnique(b, U32Bytes(x));
    }

    method WriteHtonU64(x: UInt64)
      requires pos + 8 <= data.Length
      modifies this`pos, data
      ensures pos == old(pos) + 8
      ensures data[..] == Splice(old(data[..]), old(pos), U64Bytes(x))
    {
      SpliceTwice(data[..], pos, U32Bytes(x / TWO_32), U32Bytes(x % TWO_32));
      WriteHtonU32(x / TWO_32);
      WriteHtonU32(x % TWO_32);
    }

    /** A read past the end stops the simulator. */
    method ReadNtohU32() returns (x: Option<UInt32>)
      modifies this`pos
      ensures if old(pos) + 4 <= data.Length then pos == old(pos) + 4 && x == Some(U32At(data[..], old(pos)))
              else pos == old(pos) && x.None?
    {
      if pos + 4 > data.Length {
        return None;
      }
      BigEndian4(data[pos..pos + 4]);
      x := Some(data[pos] as int * 0x100_0000 + data[pos + 1] as int * 0x1_0000
                + data[pos + 2] as int * 0x100 + data[pos + 3]);
      pos := pos + 4;
    }

    method ReadNtohU64() returns (x: Option<UInt64>)
      modifies this`pos
      ensures if old(pos) + 8 <= data.Length then pos == old(pos) + 8 && x == Some(U64At(data[..], old(pos)))
              else x.None?
    {
      var hi := ReadNtohU32();
      if hi.None? {
        return None;
      }
      var lo := ReadNtohU32();
      if lo.None? {
        return None;
      }
      x := Some(hi.value * TWO_32 + lo.value);
    }
  }

  class RqHeader {
    var m_valid: bool
    var m_seqno: UInt64
    var m_iseq_streamid: Int32
    var m_iseq_data: seq<Int32>

    ghost function Value(): Header
      reads this
    {
      Header(m_seqno, m_iseq_streamid, m_iseq_data)
    }

    /** The one-argument form ignores its argument. */
    constructor Null(seqno: UInt64)
      ensures !m_valid && Value() == NullHeader(seqno)
    {
      m_valid, m_seqno, m_iseq_streamid, m_iseq_data := false, 0, 0, [];
    }

    constructor (seqno: UInt64, streamid: Int32, counts: seq<UInt32>)
      ensures m_valid && Value() == FromCounts(seqno, streamid, counts)
    {
      m_valid, m_seqno, m_iseq_streamid := true, seqno, streamid;
      m_iseq_data := seq(|counts|, i requires 0 <= i < |counts| => ToInt32(counts[i]));
    }

    method Serialize(i: Iterator)
      requires |m_iseq_data| < TWO_31
      requires i.pos + SerializedSize(Value()) <= i.data.Length
      modifies i`pos, i.data
      ensures i.pos == old(i.pos) + SerializedSize(Value())
      ensures i.data[..] == Splice(old(i.data[..]), old(i.pos), Encode(Value()))
    {
      ghost var p, before := i.pos, i.data[..];
      ghost var m, s := U32Bytes(MAGIC), U64Bytes(m_seqno);
      ghost var d, n := U32Bytes(ToUInt32(m_iseq_streamid)), U32Bytes(ToUInt32(|m_iseq_data|));
      i.WriteHtonU32(MAGIC);
      i.WriteHtonU64(m_seqno);
      SpliceTwice(before, p, m, s);
      i.WriteHtonU32(ToUInt32(m_iseq_streamid));
      SpliceTwice(before, p, m + s, d);
      i.WriteHtonU32(ToUInt32(|m_iseq_data|));
      SpliceTwice(before, p, m + s + d, n);
      WriteCounts(i);
      SpliceTwice(before, p, m + s + d + n, CountBytes(m_iseq_data));
    }

    /** The loop at the end of Serialize. */
    method WriteCounts(i: Iterator)
      requires i.pos + 4 * |m_iseq_data| <= i.data.Length
      modifies i`pos, i.data
      ensures i.pos == old(i.pos) + 4 * |m_iseq_data|
      ensures i.data[..] == Splice(old(i.data[..]), old(i.pos), CountBytes(m_iseq_data))
    {
      ghost var p, before := i.pos, i.data[..];
      assert before == Splice(before, p, []);
      for j := 0 to |m_iseq_data|
        invariant i.pos == p + 4 * j
        invariant i.data[..] == Splice(before, p, CountBytes(m_iseq_data[..j]))
      {
        var x := ToUInt32(m_iseq_data[j]);
        i.WriteHtonU32(x);
        SpliceTwice(before, p, CountBytes(m_iseq_data[..j]), U32Bytes(x));
        CountBytesStep(m_iseq_data, j);
      }
      assert m_iseq_data[..|m_iseq_data|] == m_iseq_data;
    }

    /** No size is returned if the data ends before the header does. */
    method Deserialize(i: Iterator) returns (size: Option<nat>)
      modifies this, i`pos
      ensures var p := ParseAt(i.data[..], old(i.pos));
              && (size.None? <==> p.PastEnd?)
              && (!p.PastEnd? ==> m_valid == p.Good?)
              && (p.Good? ==> Value() == p.h && size.value == p.size && i.pos == old(i.pos) + p.size)
              && (p.BadMagic? ==> m_seqno == 0 && m_iseq_data == [] && size.value == 4)
    {
      m_iseq_data := [];
      m_seqno := 0;
      var magic := i.ReadNtohU32();
      if magic.None? {
        return None;
      }
      m_valid := magic.value == MAGIC;
      if !m_valid {
        return Some(4);
      }
      var ok := ReadFields(i);
      size := if ok then Some(MIN_SIZE + 4 * |m_iseq_data|) else None;
    }

    /** Everything after the magic word, if it is there. */
    method ReadFields(i: Iterator) returns (ok: bool)
      requires m_iseq_data == []
      modifies `m_seqno, `m_iseq_streamid, `m_iseq_data, i`pos
      ensures var b, p := i.data[..], old(i.pos);
              && (ok <==> p + 16 <= |b| && p + 16 + 4 * Announced(b, p + 12) <= |b|)
              && (ok ==>
                    && m_seqno == U64At(b, p) && m_iseq_streamid == ToInt32(U32At(b, p + 8))
                    && m_iseq_data == CountsAt(b, p + 16, Announced(b, p + 12))
                    && i.pos == p + 16 + 4 * Announced(b, p + 12))
    {
      var n := i.ReadNtohU64();
      if n.None? {
        return false;
      }
      m_seqno := n.value;
      var s := i.ReadNtohU32();
      if s.None? {
        return false;
      }
      m_iseq_streamid := ToInt32(s.value);
      var c := i.ReadNtohU32();
      if c.None? {
        return false;
      }
      ok := ReadCounts(i, ToInt32(c.value));
    }

    /** The loop at the end of Deserialize. */
    method ReadCounts(i: Iterator, iseq_sz: Int32) returns (ok: bool)
      requires i.pos <= i.data.Length && m_iseq_data == []
      modifies `m_iseq_data, i`pos
      ensures var n := if iseq_sz < 0 then 0 else iseq_sz;
              && (ok <==> old(i.pos) + 4 * n <= i.data.Length)
              && (ok ==> i.pos == old(i.pos) + 4 * n && m_iseq_data == CountsAt(i.data[..], old(i.pos), n))
    {
      var j := 0;
      ghost var b, p, n := i.data[..], i.pos, if iseq_sz < 0 then 0 else iseq_sz;
      while j < iseq_sz
        invariant 0 <= j <= n && i.pos == p + 4 * j <= i.data.Length
        invariant m_iseq_data == CountsAt(b, p, j)
      {
        var x := i.ReadNtohU32();
        if x.None? {
          return false;
        }
        var count := ToInt32(x.value);
        assert CountsAt(b, p, j + 1) == CountsAt(b, p, j) + [count];
        m_iseq_data := m_iseq_data + [count];
        j := j + 1;
      }
      ok := true;
    }
  }
}
