/** The scatter list of `emit_message`: `msg_bufs_ptrs` points at `msg_bufs_num` pairs of
    little-endian 32-bit values, each pair an (address, length) of one slice of the message
    body, and the body is the in-order concatenation of those slices (as with `writev`).
    Process memory is a byte sequence; an address range outside it makes the call fail. */
module IoVec {
  import opened Wrappers
  import opened Types

  /** One (address, length) pair. */
  datatype Buf = Buf(addr: u32, len: u32)

  /** The little-endian 32-bit value held in four bytes. */
  function DecodeLE32(b: seq<byte>): u32
    requires |b| == 4
  {
    var b0, b1, b2, b3: int := b[0], b[1], b[2], b[3];
    b0 + 0x100 * (b1 + 0x100 * (b2 + 0x100 * b3))
  }

  /** The four little-endian bytes of `x`. */
  function EncodeLE32(x: u32): (r: seq<byte>)
    ensures |r| == 4
  {
    [x % 0x100, (x / 0x100) % 0x100, (x / 0x1_0000) % 0x100, x / 0x100_0000]
  }

  /** Splitting off the low byte of `lo + 0x100 * hi`. */
  lemma DivModByte(lo: int, hi: int)
    requires 0 <= lo < 0x100 && 0 <= hi
    ensures (lo + 0x100 * hi) / 0x100 == hi && (lo + 0x100 * hi) % 0x100 == lo
  {
  }

  /** Dividing by a power of 0x100 is dividing by 0x100 repeatedly. */
  lemma Shifts(x: nat)
    ensures x / 0x1_0000 == (x / 0x100) / 0x100
    ensures x / 0x100_0000 == (x / 0x1_0000) / 0x100
  {
  }

  lemma LE32RoundTrip(x: u32)
    ensures DecodeLE32(EncodeLE32(x)) == x
  {
    var b := EncodeLE32(x);
    Shifts(x);
    assert x / 0x100 == b[1] + 0x100 * (x / 0x1_0000);
    assert x / 0x1_0000 == b[2] + 0x100 * (x / 0x100_0000);
  }

  lemma LE32Canonical(b: seq<byte>)
    requires |b| == 4
    ensures EncodeLE32(DecodeLE32(b)) == b
  {
    var x := DecodeLE32(b);
    var b0, b1, b2, b3: int := b[0], b[1], b[2], b[3];
    var y2 := b2 + 0x100 * b3;
    var y1 := b1 + 0x100 * y2;
    assert x == b0 + 0x100 * y1;
    DivModByte(b0, y1);
    DivModByte(b1, y2);
    DivModByte(b2, b3);
    Shifts(x);
  }

  /** The `num` pairs stored at `ptr`, or `None` when they do not lie inside `mem`. */
  function ReadBufs(mem: seq<byte>, ptr: nat, num: nat): (r: Option<seq<Buf>>)
    ensures r.Some? <==> ptr + 8 * num <= |mem|
    ensures r.Some? ==> |r.value| == num
    ensures r.Some? ==> forall i | 0 <= i < num :: r.value[i] == BufAt(mem, ptr + 8 * i)
    decreases num
  {
    if ptr + 8 * num > |mem| then None
    else if num == 0 then Some([])
    else Some([BufAt(mem, ptr)] + ReadBufs(mem, ptr + 8, num - 1).value)
  }

  /** The pair stored at `p`. */
  function BufAt(mem: seq<byte>, p: nat): Buf
    requires p + 8 <= |mem|
  {
    Buf(DecodeLE32(mem[p..p + 4]), DecodeLE32(mem[p + 4..p + 8]))
  }

  /** The byte image of one pair. */
  function EncodeBuf(b: Buf): (r: seq<byte>)
    ensures |r| == 8
  {
    EncodeLE32(b.addr) + EncodeLE32(b.len)
  }

  /** The byte image of a scatter list, as a caller lays it out in memory. */
  function EncodeBufs(bufs: seq<Buf>): (r: seq<byte>)
    ensures |r| == 8 * |bufs|
  {
    if |bufs| == 0 then [] else EncodeBuf(bufs[0]) + EncodeBufs(bufs[1..])
  }

  /** Reading back a laid-out scatter list yields exactly the pairs that were laid out. */
  lemma {:induction false} ReadBufsRoundTrip(pre: seq<byte>, bufs: seq<Buf>, post: seq<byte>)
    ensures ReadBufs(pre + EncodeBufs(bufs) + post, |pre|, |bufs|) == Some(bufs)
    decreases |bufs|
  {
    if |bufs| > 0 {
      var e := EncodeBuf(bufs[0]);
      var rest := EncodeBufs(bufs[1..]);
      var mem := pre + EncodeBufs(bufs) + post;
      assert mem == pre + e + (rest + post);
      assert mem == (pre + e) + rest + post;
      PairAt(pre, e, rest + post, bufs[0]);
      ReadBufsRoundTrip(pre + e, bufs[1..], post);
      assert bufs == [bufs[0]] + bufs[1..];
    }
  }

  lemma PairAt(pre: seq<byte>, e: seq<byte>, post: seq<byte>, b: Buf)
    requires e == EncodeBuf(b)
    ensures BufAt(pre + e + post, |pre|) == b
  {
    var mem := pre + e + post;
    assert mem[|pre|..|pre| + 4] == EncodeLE32(b.addr);
    assert mem[|pre| + 4..|pre| + 8] == EncodeLE32(b.len);
    LE32RoundTrip(b.addr);
    LE32RoundTrip(b.len);
  }

  predicate InBounds(mem: seq<byte>, b: Buf)
  {
    b.addr + b.len <= |mem|
  }

  /** Where buffer `i` starts in the body: the total length of the buffers before it. */
  function Offset(bufs: seq<Buf>, i: nat): nat
    requires i <= |bufs|
  {
    if i == 0 then 0 else Offset(bufs, i - 1) + bufs[i - 1].len
  }

  /** The message body: the buffers' contents, concatenated in order; `None` when a buffer
      does not lie inside `mem`. */
  function Gather(mem: seq<byte>, bufs: seq<Buf>): (r: Option<seq<byte>>)
    ensures r.Some? <==> forall i | 0 <= i < |bufs| :: InBounds(mem, bufs[i])
    ensures r.Some? ==> |r.value| == Offset(bufs, |bufs|)
    decreases |bufs|
  {
    if |bufs| == 0 then Some([])
    else
      var n := |bufs| - 1;
      var b := bufs[n];
      if !InBounds(mem, b) then None
      else
        match Gather(mem, bufs[..n])
        case None => None
        case Some(front) =>
          OffsetOfPrefix(bufs, n);
          Some(front + mem[b.addr..b.addr + b.len])
  }

  lemma {:induction false} OffsetOfPrefix(bufs: seq<Buf>, n: nat)
    requires n <= |bufs|
    ensures forall i | 0 <= i <= n :: Offset(bufs[..n], i) == Offset(bufs, i)
  {
    forall i | 0 <= i <= n
      ensures Offset(bufs[..n], i) == Offset(bufs, i)
    {
      OffsetOfPrefixAt(bufs, n, i);
    }
  }

  lemma {:induction false} OffsetOfPrefixAt(bufs: seq<Buf>, n: nat, i: nat)
    requires i <= n <= |bufs|
    ensures Offset(bufs[..n], i) == Offset(bufs, i)
  {
    if i > 0 {
      OffsetOfPrefixAt(bufs, n, i - 1);
    }
  }

  lemma {:induction false} OffsetMonotone(bufs: seq<Buf>, i: nat, j: nat)
    requires i <= j <= |bufs|
    ensures Offset(bufs, i) <= Offset(bufs, j)
    decreases j
  {
    if i < j {
      OffsetMonotone(bufs, i, j - 1);
    }
  }

  /** Buffer `i`'s contents sit in the body exactly between the offsets of buffers `i` and
      `i + 1`: nothing is reordered, dropped or padded. */
  lemma {:induction false} GatherPlacesBuffers(mem: seq<byte>, bufs: seq<Buf>, i: nat)
    requires Gather(mem, bufs).Some?
    requires i < |bufs|
    ensures Offset(bufs, i + 1) <= Offset(bufs, |bufs|)
    ensures Gather(mem, bufs).value[Offset(bufs, i)..Offset(bufs, i + 1)]
      == mem[bufs[i].addr..bufs[i].addr + bufs[i].len]
    decreases |bufs|, 1
  {
    OffsetMonotone(bufs, i + 1, |bufs|);
    if i < |bufs| - 1 {
      GatherPlacesEarlier(mem, bufs, i);
    } else {
      GatherPlacesLast(mem, bufs);
    }
  }

  /** A buffer before the last sits where it sat in the body of the list without the last. */
  lemma {:induction false} GatherPlacesEarlier(mem: seq<byte>, bufs: seq<Buf>, i: nat)
    requires Gather(mem, bufs).Some?
    requires i < |bufs| - 1
    ensures Offset(bufs, i + 1) <= |Gather(mem, bufs).value|
    ensures Gather(mem, bufs).value[Offset(bufs, i)..Offset(bufs, i + 1)]
      == mem[bufs[i].addr..bufs[i].addr + bufs[i].len]
    decreases |bufs|, 0
  {
    var n := |bufs| - 1;
    GatherLast(mem, bufs);
    var front := Gather(mem, bufs[..n]).value;
    var last := mem[bufs[n].addr..bufs[n].addr + bufs[n].len];
    GatherPlacesBuffers(mem, bufs[..n], i);
    assert bufs[..n][i] == bufs[i];
    OffsetOfPrefixAt(bufs, n, n);
    OffsetOfPrefixAt(bufs, n, i);
    OffsetOfPrefixAt(bufs, n, i + 1);
    OffsetMonotone(bufs, i + 1, n);
    SliceOfFront(front, last, Offset(bufs, i), Offset(bufs, i + 1));
  }

  /** The last buffer closes the body. */
  lemma GatherPlacesLast(mem: seq<byte>, bufs: seq<Buf>)
    requires Gather(mem, bufs).Some?
    requires |bufs| > 0
    ensures var n := |bufs| - 1;
      Gather(mem, bufs).value[Offset(bufs, n)..Offset(bufs, n + 1)]
      == mem[bufs[n].addr..bufs[n].addr + bufs[n].len]
  {
    var n := |bufs| - 1;
    GatherLast(mem, bufs);
    OffsetOfPrefixAt(bufs, n, n);
    SliceOfBack(Gather(mem, bufs[..n]).value, mem[bufs[n].addr..bufs[n].addr + bufs[n].len]);
  }

  lemma PrefixOfConcat<T>(a: seq<T>, b: seq<T>, n: nat)
    requires n < |b|
    ensures (a + b)[..|a| + n] == a + b[..n]
    ensures (a + b)[|a| + n] == b[n]
  {
  }

  lemma Regroup<T>(x: seq<T>, y: seq<T>, z: seq<T>)
    ensures x + y + z == x + (y + z)
  {
  }

  lemma SliceOfFront<T>(front: seq<T>, back: seq<T>, lo: nat, hi: nat)
    requires lo <= hi <= |front|
    ensures (front + back)[lo..hi] == front[lo..hi]
  {
  }

  lemma SliceOfBack<T>(front: seq<T>, back: seq<T>)
    ensures (front + back)[|front|..|front| + |back|] == back
  {
  }

  lemma GatherPrefix(mem: seq<byte>, bufs: seq<Buf>, n: nat)
    requires Gather(mem, bufs).Some? && n <= |bufs|
    ensures Gather(mem, bufs[..n]).Some?
  {
    forall i | 0 <= i < n
      ensures InBounds(mem, bufs[..n][i])
    {
      assert bufs[..n][i] == bufs[i];
    }
  }

  lemma GatherConcat(mem: seq<byte>, a: seq<Buf>, b: seq<Buf>)
    requires Gather(mem, a).Some? && Gather(mem, b).Some?
    ensures Gather(mem, a + b).Some?
  {
    forall i | 0 <= i < |a + b|
      ensures InBounds(mem, (a + b)[i])
    {
      if i < |a| { assert (a + b)[i] == a[i]; } else { assert (a + b)[i] == b[i - |a|]; }
    }
  }

  /** The body of a non-empty scatter list ends with its last buffer. */
  lemma GatherLast(mem: seq<byte>, bufs: seq<Buf>)
    requires Gather(mem, bufs).Some? && |bufs| > 0
    ensures var n := |bufs| - 1;
      Gather(mem, bufs[..n]).Some?
      && Gather(mem, bufs).value == Gather(mem, bufs[..n]).value + mem[bufs[n].addr..bufs[n].addr + bufs[n].len]
  {
  }

  /** Splitting the scatter list anywhere does not change the body. */
  lemma {:induction false} GatherAppend(mem: seq<byte>, a: seq<Buf>, b: seq<Buf>)
    requires Gather(mem, a).Some? && Gather(mem, b).Some?
    ensures Gather(mem, a + b) == Some(Gather(mem, a).value + Gather(mem, b).value)
    decreases |b|, 1
  {
    if |b| == 0 {
      GatherAppendNothing(mem, a, b);
    } else {
      GatherAppendLast(mem, a, b);
    }
  }

  /** The last buffer of `b` closes both the body of `b` and that of `a + b`. */
  lemma {:induction false} GatherAppendLast(mem: seq<byte>, a: seq<Buf>, b: seq<Buf>)
    requires Gather(mem, a).Some? && Gather(mem, b).Some? && |b| > 0
    ensures Gather(mem, a + b) == Some(Gather(mem, a).value + Gather(mem, b).value)
    decreases |b|, 0
  {
    var n := |b| - 1;
    PrefixOfConcat(a, b, n);
    GatherPrefix(mem, b, n);
    GatherConcat(mem, a, b);
    GatherAppend(mem, a, b[..n]);
    var last := mem[b[n].addr..b[n].addr + b[n].len];
    GatherLast(mem, b);
    GatherLast(mem, a + b);
    assert (a + b)[..|a + b| - 1] == a + b[..n];
    assert Gather(mem, a + b).value == Gather(mem, a).value + Gather(mem, b[..n]).value + last;
    Regroup(Gather(mem, a).value, Gather(mem, b[..n]).value, last);
  }

  lemma GatherAppendNothing(mem: seq<byte>, a: seq<Buf>, b: seq<Buf>)
    requires Gather(mem, a).Some? && |b| == 0
    ensures Gather(mem, a + b) == Some(Gather(mem, a).value + Gather(mem, b).value)
  {
    assert a + b == a;
    assert Gather(mem, a).value + [] == Gather(mem, a).value;
  }

  /** Buffer `i` lies in memory, and its contents sit in `body` between its offset and the
      next buffer's. */
  predicate Placed(body: seq<byte>, mem: seq<byte>, bufs: seq<Buf>, i: nat)
    requires i < |bufs|
  {
    && InBounds(mem, bufs[i])
    && Offset(bufs, i + 1) <= |body|
    && body[Offset(bufs, i)..Offset(bufs, i + 1)] == mem[bufs[i].addr..bufs[i].addr + bufs[i].len]
  }

  lemma GatherPlacesAll(mem: seq<byte>, bufs: seq<Buf>)
    requires Gather(mem, bufs).Some?
    ensures forall i | 0 <= i < |bufs| :: Placed(Gather(mem, bufs).value, mem, bufs, i)
  {
    forall i | 0 <= i < |bufs|
      ensures Placed(Gather(mem, bufs).value, mem, bufs, i)
    {
      GatherPlacesBuffers(mem, bufs, i);
    }
  }

  /** The `num` pairs at `ptr` lie in memory, and so does every buffer they describe. */
  predicate ScatterInBounds(mem: seq<byte>, ptr: nat, num: nat)
  {
    && ptr + 8 * num <= |mem|
    && forall i | 0 <= i < num :: PairInBounds(mem, ptr, num, i)
  }

  predicate PairInBounds(mem: seq<byte>, ptr: nat, num: nat, i: nat)
    requires ptr + 8 * num <= |mem| && i < num
  {
    assert ptr + 8 * i + 8 <= ptr + 8 * num;
    InBounds(mem, BufAt(mem, ptr + 8 * i))
  }

  /** Once the pairs are read, their buffers lie in memory exactly when the scatter list does. */
  lemma ScatterInBoundsGathers(mem: seq<byte>, ptr: nat, num: nat)
    requires ReadBufs(mem, ptr, num).Some?
    ensures ScatterInBounds(mem, ptr, num) <==> Gather(mem, ReadBufs(mem, ptr, num).value).Some?
  {
    var bufs := ReadBufs(mem, ptr, num).value;
    forall i | 0 <= i < num
      ensures PairInBounds(mem, ptr, num, i) <==> InBounds(mem, bufs[i])
    {
    }
  }

  /** `emit_message`'s body. It exists exactly when the scatter list and its buffers lie in
      memory; it is then the buffers' contents back to back, buffer `i` starting where the
      buffers before it end. */
  function MessageBody(mem: seq<byte>, ptr: u32, num: u32): (r: Option<seq<byte>>)
    ensures r.Some? <==> ScatterInBounds(mem, ptr, num)
    ensures r.Some? ==>
      && ReadBufs(mem, ptr, num).Some?
      && var bufs := ReadBufs(mem, ptr, num).value;
      && |r.value| == Offset(bufs, num)
      && forall i | 0 <= i < num :: Placed(r.value, mem, bufs, i)
  {
    match ReadBufs(mem, ptr, num)
    case None => None
    case Some(bufs) =>
      ScatterInBoundsGathers(mem, ptr, num);
      match Gather(mem, bufs)
      case None => None
      case Some(body) =>
        GatherPlacesAll(mem, bufs);
        Some(body)
  }
}
