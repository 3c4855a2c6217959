/**
 * The message-passing helpers: splitting N work items evenly over the ranks
 * of a communicator, and packing a particle vector into a flat buffer of
 * floating point numbers (and back) for transmission to another rank.
 *
 * The transmission itself (the non-blocking send and receive) is not
 * modelled: the bytes a receive delivers are a parameter of WaitRecv.
 */
module Mpi {
  import opened Particles
  import opened Containers
  import opened Arith

  // ---------------------------------------------------------------------
  // Small facts of integer arithmetic

  lemma {:induction false} DivMono(x: int, y: int, m: int)
    requires 0 <= x <= y && m > 0
    ensures x / m <= y / m
  {
    if x / m > y / m {
      MulMono(m, y / m + 1, x / m);
    }
  }

  lemma {:induction false} DivLe(x: int, m: int)
    requires x >= 0 && m >= 1
    ensures x / m <= x
  {
    MulMono(x / m, 1, m);
  }

  /** Adding n to a non-negative a raises the quotient by n / m or by one more. */
  lemma {:induction false} DivAddBounds(a: int, n: int, m: int)
    requires a >= 0 && n >= 0 && m > 0
    ensures n / m <= (a + n) / m - a / m <= n / m + 1
  {
    var qa, ra := a / m, a % m;
    var qn, rn := n / m, n % m;
    assert a + n == m * (qa + qn) + (ra + rn);
    if ra + rn < m {
      DivUnique(a + n, m, qa + qn, ra + rn);
    } else {
      assert a + n == m * (qa + qn + 1) + (ra + rn - m);
      DivUnique(a + n, m, qa + qn + 1, ra + rn - m);
    }
  }

  // ---------------------------------------------------------------------
  // splitEven

  /**
   * splitEven(mpi, N) for a signed T: rank i of m gets the items from
   * N*i/m to (N*i + N)/m - 1, both inclusive.  All operands are
   * non-negative, so truncating division is Dafny's division.
   */
  function SplitEven(n: int, m: int, i: int): (r: (int, int))
    requires n >= 0 && m > 0 && 0 <= i
    ensures 0 <= r.0 && r.0 <= r.1 + 1
  {
    DivAddBounds(n * i, n, m);
    ((n * i) / m, (n * i + n) / m - 1)
  }

  /** The number of items of rank i: the length of its inclusive range. */
  function Share(n: int, m: int, i: int): int
    requires n >= 0 && m > 0 && 0 <= i
  {
    SplitEven(n, m, i).1 - SplitEven(n, m, i).0 + 1
  }

  /** Rank 0 starts at item 0 and the last rank ends at item N - 1. */
  lemma {:induction false} SplitEvenEnds(n: int, m: int)
    requires n >= 0 && m > 0
    ensures SplitEven(n, m, 0).0 == 0
    ensures SplitEven(n, m, m - 1).1 == n - 1
  {
    assert n * (m - 1) + n == m * n;
    DivUnique(m * n, m, n, 0);
  }

  /** Each rank ends right before the next one starts. */
  lemma {:induction false} SplitEvenAdjacent(n: int, m: int, i: int)
    requires n >= 0 && m > 0 && 0 <= i
    ensures SplitEven(n, m, i).1 + 1 == SplitEven(n, m, i + 1).0
  {
    MulSucc(n, i);
  }

  /** Every share is N/m rounded down or rounded up. */
  lemma {:induction false} ShareIsEven(n: int, m: int, i: int)
    requires n >= 0 && m > 0 && 0 <= i
    ensures n / m <= Share(n, m, i) <= n / m + 1
  {
    DivAddBounds(n * i, n, m);
  }

  /** A later rank never starts before an earlier one. */
  lemma {:induction false} SplitEvenMonotone(n: int, m: int, i: int, j: int)
    requires n >= 0 && m > 0 && 0 <= i <= j
    ensures SplitEven(n, m, i).0 <= SplitEven(n, m, j).0
  {
    MulMono(n, i, j);
    DivMono(n * i, n * j, m);
  }

  /** The shares of ranks 0 .. k-1 together. */
  function SharesBelow(n: int, m: int, k: nat): int
    requires n >= 0 && m > 0
  {
    if k == 0 then 0 else SharesBelow(n, m, k - 1) + Share(n, m, k - 1)
  }

  /** The first k ranks together hold exactly the items before rank k's start; all m ranks hold all N. */
  lemma {:induction false} SharesSum(n: int, m: int, k: nat)
    requires n >= 0 && m > 0
    ensures SharesBelow(n, m, k) == SplitEven(n, m, k).0
    ensures k == m ==> SharesBelow(n, m, k) == n
  {
    if k > 0 {
      SharesSum(n, m, k - 1);
      SplitEvenAdjacent(n, m, k - 1);
    }
    if k == m {
      SplitEvenEnds(n, m);
      SplitEvenAdjacent(n, m, m - 1);
    }
  }

  predicate InShare(n: int, m: int, i: int, j: int)
    requires n >= 0 && m > 0 && 0 <= i
  {
    SplitEven(n, m, i).0 <= j <= SplitEven(n, m, i).1
  }

  lemma {:induction false} CoveredFrom(n: int, m: int, j: int, k: int)
    requires n >= 0 && m > 0 && 0 <= k < m
    requires SplitEven(n, m, k).0 <= j < n
    ensures exists i :: k <= i < m && InShare(n, m, i, j)
    decreases m - k
  {
    if !InShare(n, m, k, j) {
      SplitEvenAdjacent(n, m, k);
      if k + 1 == m {
        SplitEvenEnds(n, m);
        assert false;
      }
      CoveredFrom(n, m, j, k + 1);
    }
  }

  /** An earlier rank's range ends before a later rank's range starts. */
  lemma {:induction false} SharesDisjoint(n: int, m: int, i: int, i': int)
    requires n >= 0 && m > 0 && 0 <= i < i'
    ensures SplitEven(n, m, i).1 < SplitEven(n, m, i').0
  {
    SplitEvenAdjacent(n, m, i);
    SplitEvenMonotone(n, m, i + 1, i');
  }

  /** The ranges partition the items: each item 0 .. N-1 belongs to exactly one rank. */
  lemma {:induction false} SplitEvenPartition(n: int, m: int, j: int)
    requires n >= 0 && m > 0 && 0 <= j < n
    ensures exists i :: 0 <= i < m && InShare(n, m, i, j)
    ensures forall i, i' :: 0 <= i < m && 0 <= i' < m && InShare(n, m, i, j) && InShare(n, m, i', j) ==> i == i'
  {
    SplitEvenEnds(n, m);
    CoveredFrom(n, m, j, 0);
    forall i, i' | 0 <= i < m && 0 <= i' < m && InShare(n, m, i, j) && InShare(n, m, i', j)
      ensures i == i'
    {
      if i < i' {
        SharesDisjoint(n, m, i, i');
      } else if i' < i {
        SharesDisjoint(n, m, i', i);
      }
    }
  }

  /** With fewer items than ranks, rank 0 gets the empty range (end one below start). */
  lemma {:induction false} FewItemsEmptyShare(n: int, m: int)
    requires 0 <= n < m
    ensures SplitEven(n, m, 0) == (0, -1)
    ensures Share(n, m, 0) == 0
  {
    DivUnique(n, m, 0, n);
  }

  /** The width of size_t. */
  const SizeRange: int := 0x1_0000_0000_0000_0000

  /**
   * splitEven as it runs for T = size_t, the type every caller passes
   * (the size of a vector): the same arithmetic modulo 2^64.  The
   * multiplication is assumed not to overflow.
   */
  function SplitEvenUnsigned(n: int, m: int, i: int): (int, int)
    requires 0 <= n && 0 < m < SizeRange && 0 <= i && n * i + n < SizeRange
  {
    ((n * i) / m, ((n * i + n) / m - 1) % SizeRange)
  }

  /**
   * With fewer items than ranks, rank 0's unsigned end wraps to 2^64 - 1,
   * so the callers' loop from first to second (inclusive) reads far past
   * the N items.
   */
  lemma {:induction false} UnsignedShareWraps(n: int, m: int)
    requires 0 <= n < m < SizeRange
    ensures SplitEvenUnsigned(n, m, 0) == (0, SizeRange - 1)
    ensures SplitEvenUnsigned(n, m, 0).1 >= n
  {
    assert n * 0 + n == n;
    DivUnique(n, m, 0, n);
    assert -1 == SizeRange * -1 + (SizeRange - 1);
    assert (-1) % SizeRange == SizeRange - 1;
  }

  /** One item on two ranks: rank 0's loop would run over 2^64 indices. */
  lemma {:induction false} OneItemTwoRanks()
    ensures SplitEvenUnsigned(1, 2, 0).1 - SplitEvenUnsigned(1, 2, 0).0 + 1 == SizeRange
    ensures SplitEven(1, 2, 0) == (0, -1)
  {
    UnsignedShareWraps(1, 2);
    FewItemsEmptyShare(1, 2);
  }

  /** Whenever no range is empty-at-zero, the unsigned and the signed split agree. */
  lemma {:induction false} UnsignedAgreesOtherwise(n: int, m: int, i: int)
    requires 0 <= n && 0 < m < SizeRange && 0 <= i && n * i + n < SizeRange
    requires (n * i + n) / m >= 1
    ensures SplitEvenUnsigned(n, m, i) == SplitEven(n, m, i)
  {
    var a := n * i + n;
    DivLe(a, m);
    var e := a / m - 1;
    DivUnique(e, SizeRange, 0, e);
  }

  // ---------------------------------------------------------------------
  // ParticleTransmitter: the buffer layout

  /** The data formats; each one's number is the count of floats sent per particle. */
  datatype Format = XYZ | XYZQ | XYZQI

  function Width(f: Format): (r: nat)
    ensures 3 <= r <= 5
  {
    match f
    case XYZ => 3
    case XYZQ => 4
    case XYZQI => 5
  }

  /** The floats taken by n particles in format f, written as a sum so that it stays linear. */
  function Span(f: Format, n: nat): nat
  {
    if n == 0 then 0 else Span(f, n - 1) + Width(f)
  }

  /** The span is the width per particle times the number of particles. */
  lemma {:induction false} SpanIsProduct(f: Format, n: nat)
    ensures Span(f, n) == Width(f) * n
  {
    if n > 0 {
      SpanIsProduct(f, n - 1);
      MulSucc(Width(f), n - 1);
    }
  }

  lemma {:induction false} SpanMono(f: Format, a: nat, b: nat)
    requires a <= b
    ensures Span(f, a) <= Span(f, b)
    decreases b
  {
    if a < b {
      SpanMono(f, a, b - 1);
    }
  }

  /** setFormat(string): "XYZQ" and "XYZ" name their formats; any other string gives XYZQI. */
  function FormatOfName(s: string): (r: Format)
    ensures r == XYZQ <==> s == "XYZQ"
    ensures r == XYZ <==> s == "XYZ"
    ensures r == XYZQI <==> s != "XYZQ" && s != "XYZ"
  {
    if s == "XYZ" then XYZ else if s == "XYZQ" then XYZQ else XYZQI
  }

  function FormatName(f: Format): string
  {
    match f
    case XYZ => "XYZ"
    case XYZQ => "XYZQ"
    case XYZQI => "XYZQI"
  }

  /** Every format can be chosen by its name. */
  lemma {:induction false} FormatNameRoundTrip(f: Format)
    ensures FormatOfName(FormatName(f)) == f
  {
    match f
    case XYZ =>
    case XYZQ => assert FormatName(f) != "XYZ";
    case XYZQI => assert FormatName(f) != "XYZ" && FormatName(f) != "XYZQ";
  }

  /** The floats pvec2buf pushes for one particle: x, y, z, then the charge and the id as the format asks. */
  function Encode(p: Particle, f: Format): (r: seq<real>)
    ensures |r| == Width(f)
  {
    [p.pos.x, p.pos.y, p.pos.z]
    + (if f == XYZ then [] else [p.charge])
    + (if f == XYZQI then [p.id as real] else [])
  }

  /** The particle part of the send buffer: the encodings one after the other. */
  function Pack(src: seq<Particle>, f: Format): (r: seq<real>)
    ensures |r| == Span(f, |src|)
    decreases |src|
  {
    if src == [] then [] else Pack(src[..|src| - 1], f) + Encode(src[|src| - 1], f)
  }

  /**
   * What buf2pvec makes of particle q from the floats of one chunk: the
   * position, and the charge and the (truncated) id as the format carries
   * them; every other property of q stays.
   */
  function Decode(q: Particle, chunk: seq<real>, f: Format): (r: Particle)
    requires |chunk| == Width(f)
    ensures r.hydrophobic == q.hydrophobic && r.radius == q.radius
    ensures r.pos == Point(chunk[0], chunk[1], chunk[2])
    ensures r.charge == if f == XYZ then q.charge else chunk[3]
    ensures r.id == if f == XYZQI then Trunc(chunk[4]) else q.id
  {
    var q1 := q.(pos := Point(chunk[0], chunk[1], chunk[2]));
    if f == XYZ then q1
    else if f == XYZQ then q1.(charge := chunk[3])
    else q1.(charge := chunk[3], id := Trunc(chunk[4]))
  }

  /** buf2pvec on the particle part: particle k is decoded from the k-th chunk of the buffer. */
  function Unpack(dst: seq<Particle>, buf: seq<real>, f: Format): (r: seq<Particle>)
    requires Span(f, |dst|) <= |buf|
    ensures |r| == |dst|
    decreases |dst|
  {
    if dst == [] then []
    else
      var n := |dst| - 1;
      Unpack(dst[..n], buf, f) + [Decode(dst[n], buf[Span(f, n)..Span(f, n) + Width(f)], f)]
  }

  /** Unpacking one more particle appends its decoded chunk. */
  lemma {:induction false} UnpackStep(prev: seq<Particle>, buf: seq<real>, f: Format, k: nat)
    requires k < |prev| && Span(f, k + 1) <= |buf|
    ensures Span(f, k + 1) == Span(f, k) + Width(f)
    ensures Unpack(prev[..k + 1], buf, f)
            == Unpack(prev[..k], buf, f) + [Decode(prev[k], buf[Span(f, k)..Span(f, k) + Width(f)], f)]
  {
    assert prev[..k + 1][..k] == prev[..k];
  }

  /** A received particle r, sent as `sent` onto `prev`, carries the sent fields of the format and keeps the rest. */
  predicate Carries(r: Particle, prev: Particle, sent: Particle, f: Format)
  {
    && r.pos == sent.pos
    && r.charge == (if f == XYZ then prev.charge else sent.charge)
    && r.id == (if f == XYZQI then sent.id else prev.id)
    && r.hydrophobic == prev.hydrophobic && r.radius == prev.radius
  }

  /** An integer id survives the conversion to a float and back. */
  lemma {:induction false} TruncOfInt(n: int)
    ensures Trunc(n as real) == n
  {
    if n < 0 {
      assert -(n as real) == (-n) as real;
    }
  }

  lemma {:induction false} DecodeEncode(q: Particle, p: Particle, f: Format)
    ensures Carries(Decode(q, Encode(p, f), f), q, p, f)
  {
    TruncOfInt(p.id);
  }

  /** A buffer that starts with Pack(src) starts with the packing of all but the last particle, followed by the last one's chunk. */
  lemma {:induction false} PackPrefix(src: seq<Particle>, buf: seq<real>, f: Format)
    requires |src| > 0 && Span(f, |src|) <= |buf|
    requires buf[..Span(f, |src|)] == Pack(src, f)
    ensures buf[..Span(f, |src| - 1)] == Pack(src[..|src| - 1], f)
    ensures buf[Span(f, |src| - 1)..Span(f, |src|)] == Encode(src[|src| - 1], f)
  {
    var n := |src| - 1;
    var head := Pack(src[..n], f);
    assert Pack(src, f) == head + Encode(src[n], f);
    assert buf[..Span(f, n)] == buf[..Span(f, |src|)][..Span(f, n)];
    assert buf[Span(f, n)..Span(f, |src|)] == buf[..Span(f, |src|)][Span(f, n)..Span(f, |src|)];
  }

  /** Extending the received vector by one particle that carries the last sent one keeps every particle carried. */
  lemma {:induction false} CarriesSnoc(front: seq<Particle>, dst: seq<Particle>, src: seq<Particle>, x: Particle, f: Format)
    requires |front| + 1 == |dst| == |src|
    requires forall k :: 0 <= k < |front| ==> Carries(front[k], dst[..|front|][k], src[..|front|][k], f)
    requires Carries(x, dst[|front|], src[|front|], f)
    ensures forall k :: 0 <= k < |src| ==> Carries((front + [x])[k], dst[k], src[k], f)
  {
    forall k | 0 <= k < |src|
      ensures Carries((front + [x])[k], dst[k], src[k], f)
    {
      if k < |front| {
        assert (front + [x])[k] == front[k] && dst[..|front|][k] == dst[k] && src[..|front|][k] == src[k];
      }
    }
  }

  /**
   * Round trip: unpacking any buffer that starts with Pack(src) onto a
   * vector of the same length carries, particle for particle, what the
   * format sends.
   */
  lemma {:induction false} UnpackPack(dst: seq<Particle>, src: seq<Particle>, buf: seq<real>, f: Format)
    requires |dst| == |src| && Span(f, |src|) <= |buf|
    requires buf[..Span(f, |src|)] == Pack(src, f)
    ensures forall k :: 0 <= k < |src| ==> Carries(Unpack(dst, buf, f)[k], dst[k], src[k], f)
    decreases |src|
  {
    if src != [] {
      var n := |src| - 1;
      PackPrefix(src, buf, f);
      UnpackPack(dst[..n], src[..n], buf, f);
      DecodeEncode(dst[n], src[n], f);
      var front := Unpack(dst[..n], buf, f);
      var x := Decode(dst[n], Encode(src[n], f), f);
      assert Span(f, |src|) == Span(f, n) + Width(f);
      assert buf[Span(f, n)..Span(f, n) + Width(f)] == Encode(src[n], f);
      assert Unpack(dst, buf, f) == front + [x];
      CarriesSnoc(front, dst, src, x, f);
    }
  }

  /** The extra floats follow the particle part, so the receiver gets them back unchanged. */
  lemma {:induction false} ExtrasFollow(src: seq<Particle>, extra: seq<real>, f: Format)
    ensures (Pack(src, f) + extra)[..Span(f, |src|)] == Pack(src, f)
    ensures (Pack(src, f) + extra)[Span(f, |src|)..] == extra
  {
  }

  /** std::vector::resize: keep the first n elements, padding with zeros. */
  function Resized(s: seq<real>, n: nat): (r: seq<real>)
    ensures |r| == n
    ensures forall k :: 0 <= k < n && k < |s| ==> r[k] == s[k]
    ensures forall k :: |s| <= k < n ==> r[k] == 0.0
  {
    if n <= |s| then s[..n] else s + seq(n - |s|, _ => 0.0)
  }

  class ParticleTransmitter {
    var format: Format
    var sendExtra: seq<real>
    var recvExtra: seq<real>
    var sendBuf: seq<real>
    var recvBuf: seq<real>
    var dstPtr: array?<Particle>

    /** The constructor selects XYZQI. */
    constructor ()
      ensures format == XYZQI
      ensures sendExtra == [] && recvExtra == [] && sendBuf == [] && recvBuf == [] && dstPtr == null
    {
      format := XYZQI;
      sendExtra, recvExtra, sendBuf, recvBuf := [], [], [], [];
      dstPtr := null;
    }

    method SetFormat(d: Format)
      modifies this
      ensures format == d
      ensures sendExtra == old(sendExtra) && recvExtra == old(recvExtra) && sendBuf == old(sendBuf)
      ensures recvBuf == old(recvBuf) && dstPtr == old(dstPtr)
    {
      format := d;
    }

    /** setFormat(string): XYZQI first, then overridden by an exact "XYZQ" or "XYZ". */
    method SetFormatName(s: string)
      modifies this
      ensures format == FormatOfName(s)
      ensures sendExtra == old(sendExtra) && recvExtra == old(recvExtra) && sendBuf == old(sendBuf)
      ensures recvBuf == old(recvBuf) && dstPtr == old(dstPtr)
    {
      SetFormat(XYZQI);
      if s == "XYZQ" {
        SetFormat(XYZQ);
      }
      if s == "XYZ" {
        SetFormat(XYZ);
      }
    }

    function GetFormat(): (r: Format)
      reads this
      ensures r == format
    {
      format
    }

    /** The pushes pvec2buf makes for one particle. */
    method PushParticle(p: Particle)
      modifies this
      ensures sendBuf == old(sendBuf) + Encode(p, format)
      ensures format == old(format) && sendExtra == old(sendExtra) && recvExtra == old(recvExtra)
      ensures recvBuf == old(recvBuf) && dstPtr == old(dstPtr)
    {
      sendBuf := sendBuf + [p.pos.x];
      sendBuf := sendBuf + [p.pos.y];
      sendBuf := sendBuf + [p.pos.z];
      if format == XYZQ {
        sendBuf := sendBuf + [p.charge];
      }
      if format == XYZQI {
        sendBuf := sendBuf + [p.charge];
        sendBuf := sendBuf + [p.id as real];
      }
    }

    /** The tail of pvec2buf: every extra float is pushed in turn. */
    method PushExtras()
      modifies this
      ensures sendBuf == old(sendBuf) + sendExtra
      ensures format == old(format) && sendExtra == old(sendExtra) && recvExtra == old(recvExtra)
      ensures recvBuf == old(recvBuf) && dstPtr == old(dstPtr)
    {
      var j := 0;
      while j < |sendExtra|
        invariant format == old(format) && sendExtra == old(sendExtra) && recvExtra == old(recvExtra)
        invariant recvBuf == old(recvBuf) && dstPtr == old(dstPtr)
        invariant 0 <= j <= |sendExtra|
        invariant sendBuf == old(sendBuf) + sendExtra[..j]
      {
        assert sendExtra[..j + 1] == sendExtra[..j] + [sendExtra[j]];
        sendBuf := sendBuf + [sendExtra[j]];
        j := j + 1;
      }
      assert sendExtra[..j] == sendExtra;
    }

    /** pvec2buf: the send buffer becomes the packed particles followed by the extra floats. */
    method Pvec2Buf(src: seq<Particle>)
      modifies this
      ensures sendBuf == Pack(src, format) + sendExtra
      ensures format == old(format) && sendExtra == old(sendExtra) && recvExtra == old(recvExtra)
      ensures recvBuf == old(recvBuf) && dstPtr == old(dstPtr)
    {
      sendBuf := [];
      var k := 0;
      while k < |src|
        invariant format == old(format) && sendExtra == old(sendExtra) && recvExtra == old(recvExtra)
        invariant recvBuf == old(recvBuf) && dstPtr == old(dstPtr)
        invariant 0 <= k <= |src|
        invariant sendBuf == Pack(src[..k], format)
      {
        assert src[..k + 1][..k] == src[..k];
        PushParticle(src[k]);
        k := k + 1;
      }
      assert src[..k] == src;
      PushExtras();
    }

    /** send: the destination must be a rank of the communicator; the buffer is filled by pvec2buf. */
    method Send(src: seq<Particle>, dst: int, nproc: int)
      requires 0 <= dst < nproc
      modifies this
      ensures sendBuf == Pack(src, format) + sendExtra
      ensures format == old(format) && sendExtra == old(sendExtra) && recvExtra == old(recvExtra)
      ensures recvBuf == old(recvBuf) && dstPtr == old(dstPtr)
    {
      Pvec2Buf(src);
    }

    /** The receive buffer has room for exactly the particles of the destination and the extras. */
    ghost predicate Ready()
      reads this
    {
      dstPtr != null && |recvBuf| == Span(format, dstPtr.Length) + |recvExtra|
    }

    /**
     * recv: remembers the destination and sizes the receive buffer to the
     * format's width per particle plus as many extras as are sent.
     */
    method Recv(src: int, nproc: int, dst: array<Particle>)
      requires 0 <= src < nproc
      modifies this
      ensures format == old(format) && sendExtra == old(sendExtra) && sendBuf == old(sendBuf)
      ensures Ready() && dstPtr == dst
      ensures recvExtra == Resized(old(recvExtra), |sendExtra|)
      ensures recvBuf == Resized(Resized(old(recvBuf), Width(format) * dst.Length), Width(format) * dst.Length + |sendExtra|)
    {
      SpanIsProduct(format, dst.Length);
      dstPtr := dst;
      if format == XYZ {
        recvBuf := Resized(recvBuf, 3 * dst.Length);
      }
      if format == XYZQ {
        recvBuf := Resized(recvBuf, 4 * dst.Length);
      }
      if format == XYZQI {
        recvBuf := Resized(recvBuf, 5 * dst.Length);
      }
      recvExtra := Resized(recvExtra, |sendExtra|);
      recvBuf := Resized(recvBuf, |recvBuf| + |recvExtra|);
    }

    /** One particle of buf2pvec: q updated from the chunk at position i, and the position after it. */
    method ReadParticle(q: Particle, i: nat) returns (r: Particle, next: nat)
      requires i + Width(format) <= |recvBuf|
      ensures r == Decode(q, recvBuf[i..i + Width(format)], format)
      ensures next == i + Width(format)
    {
      r := q.(pos := Point(recvBuf[i], recvBuf[i + 1], recvBuf[i + 2]));
      next := i + 3;
      if format == XYZQ {
        r := r.(charge := recvBuf[next]);
        next := next + 1;
      }
      if format == XYZQI {
        r := r.(charge := recvBuf[next]);
        r := r.(id := Trunc(recvBuf[next + 1]));
        next := next + 2;
      }
    }

    /** The tail of buf2pvec: each extra is read in turn from position i on. */
    method ReadExtras(i: nat) returns (next: nat)
      requires i + |recvExtra| <= |recvBuf|
      modifies this
      ensures format == old(format) && sendExtra == old(sendExtra) && sendBuf == old(sendBuf)
      ensures recvBuf == old(recvBuf) && dstPtr == old(dstPtr)
      ensures recvExtra == recvBuf[i..i + |old(recvExtra)|]
      ensures next == i + |recvExtra|
    {
      next := i;
      var j := 0;
      while j < |recvExtra|
        invariant format == old(format) && sendExtra == old(sendExtra) && sendBuf == old(sendBuf)
        invariant recvBuf == old(recvBuf) && dstPtr == old(dstPtr)
        invariant 0 <= j <= |recvExtra| == |old(recvExtra)| && next == i + j
        invariant forall m :: 0 <= m < j ==> recvExtra[m] == recvBuf[i + m]
      {
        recvExtra := recvExtra[j := recvBuf[next]];
        next := next + 1;
        j := j + 1;
      }
    }

    /** The particle part of buf2pvec: every particle of dst decoded in turn; the position after the last chunk. */
    method ReadParticles(dst: array<Particle>) returns (next: nat)
      requires Span(format, dst.Length) <= |recvBuf|
      modifies dst
      ensures dst[..] == Unpack(old(dst[..]), recvBuf, format)
      ensures next == Span(format, dst.Length)
    {
      ghost var prev := dst[..];
      next := 0;
      var k := 0;
      while k < dst.Length
        invariant 0 <= k <= dst.Length && next == Span(format, k) && Span(format, k) <= Span(format, dst.Length)
        invariant dst[..k] == Unpack(prev[..k], recvBuf, format)
        invariant forall m :: k <= m < dst.Length ==> dst[m] == prev[m]
      {
        SpanMono(format, k + 1, dst.Length);
        UnpackStep(prev, recvBuf, format, k);
        var q;
        q, next := ReadParticle(dst[k], next);
        dst[k] := q;
        assert dst[..k + 1] == dst[..k] + [q];
        k := k + 1;
      }
      assert dst[..] == dst[..k];
      assert prev == prev[..k];
    }

    /**
     * buf2pvec: particle k of dst is decoded from the k-th chunk of the
     * receive buffer, the extras are read from what follows, and the result
     * says whether the buffer was consumed to its end.
     */
    method Buf2Pvec(dst: array<Particle>) returns (consumed: bool)
      requires Span(format, dst.Length) + |recvExtra| <= |recvBuf|
      modifies this, dst
      ensures format == old(format) && sendExtra == old(sendExtra) && sendBuf == old(sendBuf)
      ensures recvBuf == old(recvBuf) && dstPtr == old(dstPtr)
      ensures dst[..] == Unpack(old(dst[..]), recvBuf, format)
      ensures recvExtra == recvBuf[Span(format, dst.Length)..Span(format, dst.Length) + |old(recvExtra)|]
      ensures consumed <==> Span(format, dst.Length) + |recvExtra| == |recvBuf|
    {
      var i := ReadParticles(dst);
      i := ReadExtras(i);
      consumed := i == |recvBuf|;
    }

    /**
     * waitrecv, once the bytes have arrived: the message fills the receive
     * buffer and is decoded into the destination given to recv.
     */
    method WaitRecv(incoming: seq<real>) returns (consumed: bool)
      requires Ready() && |incoming| == |recvBuf|
      modifies this, dstPtr
      ensures format == old(format) && sendExtra == old(sendExtra) && sendBuf == old(sendBuf)
      ensures recvBuf == incoming && dstPtr == old(dstPtr) && consumed
      ensures dstPtr[..] == Unpack(old(dstPtr[..]), incoming, format)
      ensures recvExtra == incoming[Span(format, dstPtr.Length)..]
    {
      recvBuf := incoming;
      var d := dstPtr;
      consumed := Buf2Pvec(d);
    }
  }

  /**
   * The transmission end to end: a receiver sized by recv for the same
   * format, the same number of particles and the same number of extras,
   * given the sender's buffer, carries every particle's sent fields and
   * receives the extras unchanged.
   */
  lemma {:induction false} TransmitRoundTrip(src: seq<Particle>, dst: seq<Particle>, extra: seq<real>, f: Format)
    requires |dst| == |src|
    ensures |Pack(src, f) + extra| == Span(f, |dst|) + |extra|
    ensures forall k :: 0 <= k < |src| ==> Carries(Unpack(dst, Pack(src, f) + extra, f)[k], dst[k], src[k], f)
    ensures (Pack(src, f) + extra)[Span(f, |dst|)..] == extra
  {
    ExtrasFollow(src, extra, f);
    UnpackPack(dst, src, Pack(src, f) + extra, f);
  }
}
