/** The RDMA ring mailbox: one byte ring between a sender machine and a receiver thread.

    Senders reserve room under a lock and later write the frame
    (header, payload, padding, footer) word by word; the receiver fetches a
    frame once its footer is in place, zeroes it, and publishes its head now
    and then.  `queue` is the abstract state: the messages reserved and not yet
    fetched, in reservation order.
 */
module RingMailbox {
  import opened Options

  type uint8 = n: int | 0 <= n < 256

  datatype byte = Byte(value: uint8)

  const ZERO := Byte(0)

  // ---------- 64-bit words ----------

  const TWO64: nat := 0x1_0000_0000_0000_0000

  /** Little-endian value of a byte sequence. */
  function Dec(s: seq<byte>): nat
    decreases |s|
  {
    if s == [] then 0 else s[0].value + 256 * Dec(s[1..])
  }

  ghost function Enc(n: nat, k: nat): (s: seq<byte>)
    ensures |s| == k
    decreases k
  {
    if k == 0 then [] else [Byte(n % 256)] + Enc(n / 256, k - 1)
  }

  /** `n` is representable in `k` bytes. */
  ghost predicate Fits(n: nat, k: nat)
    decreases k
  {
    if k == 0 then n == 0 else Fits(n / 256, k - 1)
  }

  lemma {:induction false} DecEnc(n: nat, k: nat)
    requires Fits(n, k)
    ensures Dec(Enc(n, k)) == n
    decreases k
  {
    if k > 0 {
      DecEnc(n / 256, k - 1);
      assert Enc(n, k)[1..] == Enc(n / 256, k - 1);
    }
  }

  lemma {:induction false} WordFitsIn8(n: nat)
    requires n < TWO64
    ensures Fits(n, 8)
  {
  }

  lemma {:induction false} WordExists(n: nat)
    requires n < TWO64
    ensures exists s: seq<byte> :: |s| == 8 && Dec(s) == n
  {
    WordFitsIn8(n);
    DecEnc(n, 8);
  }

  function Zeros(n: nat): seq<byte> {
    seq(n, _ => ZERO)
  }

  lemma {:induction false} DecZeros(n: nat)
    ensures Dec(Zeros(n)) == 0
    decreases n
  {
    if n > 0 {
      assert Zeros(n)[1..] == Zeros(n - 1);
      DecZeros(n - 1);
    }
  }

  // ---------- frames ----------

  /** A whole number of words. */
  ghost predicate Aligned(n: nat) {
    n == 0 || (n >= 8 && Aligned(n - 8))
  }

  lemma {:induction false} AlignedMod(n: nat)
    ensures Aligned(n) <==> n % 8 == 0
    decreases n
  {
    if n >= 8 { AlignedMod(n - 8); }
  }

  lemma {:induction false} AlignedSum(a: nat, b: nat)
    requires Aligned(a)
    ensures Aligned(a + b) <==> Aligned(b)
    decreases a
  {
    if a >= 8 { AlignedSum(a - 8, b); }
  }

  lemma {:induction false} AlignedWords(w: nat)
    ensures Aligned(8 * w)
    decreases w
  {
    if w > 0 { AlignedWords(w - 1); }
  }

  lemma {:induction false} AlignedGap(a: nat, b: nat)
    requires Aligned(a) && Aligned(b) && a < b
    ensures a + 8 <= b
  {
    AlignedSum(a, b - a);
  }

  /** Length rounded up to whole words. */
  ghost function Ceil8(n: nat): (c: nat)
    ensures n <= c < n + 8 && Aligned(c)
    decreases n
  {
    if n == 0 then 0 else if n <= 8 then 8 else 8 + Ceil8(n - 8)
  }

  lemma {:induction false} CeilIs(n: nat, c: nat)
    requires Aligned(c) && n <= c < n + 8
    ensures c == Ceil8(n)
  {
    if c < Ceil8(n) { AlignedGap(c, Ceil8(n)); }
    if Ceil8(n) < c { AlignedGap(Ceil8(n), c); }
  }

  method Ceil(original: nat) returns (c: nat)
    ensures c == Ceil8(original)
  {
    c := if original % 8 == 0 then original else original - original % 8 + 8;
    AlignedMod(c);
    CeilIs(original, c);
  }

  /** The 64-bit header, repeated as footer: the eight bytes that read as `len`. */
  ghost function Header(len: nat): (s: seq<byte>)
    requires len < TWO64
    ensures |s| == 8 && Dec(s) == len
  {
    WordExists(len);
    var s: seq<byte> :| |s| == 8 && Dec(s) == len;
    s
  }

  ghost function FrameSize(len: nat): nat {
    8 + Ceil8(len) + 8
  }

  /** A reserved message: its payload, whatever bytes pad it, and how many words of its frame are written. */
  datatype InFlight = InFlight(payload: seq<byte>, pad: seq<byte>, words: nat)

  ghost predicate Formed(m: InFlight) {
    && |m.payload| > 0 && |m.payload| < TWO64
    && |m.pad| == Ceil8(|m.payload|) - |m.payload|
    && 8 * m.words <= FrameSize(|m.payload|)
  }

  ghost predicate Complete(m: InFlight) {
    8 * m.words == FrameSize(|m.payload|)
  }

  ghost function Frame(payload: seq<byte>, pad: seq<byte>): seq<byte>
    requires |payload| < TWO64
  {
    Header(|payload|) + payload + pad + Header(|payload|)
  }

  lemma {:induction false} FrameParts(payload: seq<byte>, pad: seq<byte>)
    requires |payload| < TWO64
    ensures var f := Frame(payload, pad);
            var c := 8 + |payload| + |pad|;
            && |f| == c + 8
            && f[..8] == Header(|payload|) == f[c..c + 8]
            && f[8..8 + |payload|] == payload
  {
  }

  ghost predicate AllFormed(q: seq<InFlight>) {
    forall i | 0 <= i < |q| :: Formed(q[i])
  }

  ghost function Room(m: InFlight): nat {
    FrameSize(|m.payload|)
  }

  ghost function Size(q: seq<InFlight>): nat
    decreases |q|
  {
    if q == [] then 0 else Room(q[0]) + Size(q[1..])
  }

  /** What the ring holds at byte `k` of the frame of `m`: what was written there, or zero. */
  ghost function ImageByte(m: InFlight, k: nat): byte
    requires Formed(m) && k < Room(m)
  {
    if k < 8 * m.words then FrameByte(m, k) else ZERO
  }

  ghost function FrameByte(m: InFlight, k: nat): byte
    requires Formed(m) && k < Room(m)
  {
    Frame(m.payload, m.pad)[k]
  }

  /** What the ring holds `k` bytes after the head: the frames in reservation order, then zeros. */
  ghost function ByteAt(q: seq<InFlight>, k: nat): byte
    requires AllFormed(q)
    decreases |q|
  {
    if q == [] then ZERO
    else if k < Room(q[0]) then ImageByte(q[0], k)
    else ByteAt(q[1..], k - Room(q[0]))
  }

  lemma {:induction false} ZeroBeyond(q: seq<InFlight>, k: nat)
    requires AllFormed(q) && k >= Size(q)
    ensures ByteAt(q, k) == ZERO
    decreases |q|
  {
    if q != [] { ZeroBeyond(q[1..], k - Room(q[0])); }
  }

  /** Reserving moves no byte: the new frame lies where the ring is zero. */
  lemma {:induction false} ByteReserve(q: seq<InFlight>, m: InFlight, k: nat)
    requires AllFormed(q) && Formed(m) && m.words == 0
    ensures AllFormed(q + [m]) && Size(q + [m]) == Size(q) + Room(m)
    ensures ByteAt(q + [m], k) == ByteAt(q, k)
    decreases |q|
  {
    if q == [] {
      assert q + [m] == [m] && Size([m]) == Room(m) + Size([]);
    } else {
      assert (q + [m])[1..] == q[1..] + [m];
      ByteReserve(q[1..], m, if k < Room(q[0]) then 0 else k - Room(q[0]));
    }
  }

  /** Where frame `i` starts, counted from the head. */
  ghost function Start(q: seq<InFlight>, i: nat): nat
    requires i <= |q|
    decreases i
  {
    if i == 0 then 0 else Room(q[0]) + Start(q[1..], i - 1)
  }

  lemma {:induction false} RoomAligned(m: InFlight)
    ensures Aligned(Room(m)) && Room(m) >= 16
  {
  }

  lemma {:induction false} StartBounds(q: seq<InFlight>, i: nat)
    requires i < |q|
    ensures Start(q, i) + Room(q[i]) <= Size(q) && Aligned(Start(q, i))
    decreases i
  {
    if i > 0 {
      StartBounds(q[1..], i - 1);
      RoomAligned(q[0]);
      AlignedSum(Room(q[0]), Start(q[1..], i - 1));
    }
  }

  ghost function Written(m: InFlight): InFlight {
    m.(words := m.words + 1)
  }

  lemma {:induction false} WordLeft(m: InFlight)
    requires Formed(m) && !Complete(m)
    ensures Formed(Written(m)) && 8 * m.words + 8 <= Room(m)
  {
    RoomAligned(m);
    AlignedWords(m.words);
    AlignedGap(8 * m.words, Room(m));
  }

  lemma {:induction false} SizeWritten(q: seq<InFlight>, i: nat)
    requires i < |q| && AllFormed(q) && !Complete(q[i])
    ensures AllFormed(q[i := Written(q[i])]) && Size(q[i := Written(q[i])]) == Size(q)
    decreases i
  {
    WordLeft(q[i]);
    if i > 0 {
      SizeWritten(q[1..], i - 1);
      assert q[i := Written(q[i])][1..] == q[1..][i - 1 := Written(q[i])];
    }
  }

  /** Writing the next word of frame `i` changes exactly its eight bytes. */
  lemma {:induction false} ByteWrite(q: seq<InFlight>, i: nat, k: nat)
    requires i < |q| && AllFormed(q) && !Complete(q[i]) && AllFormed(q[i := Written(q[i])])
    ensures var s, w := Start(q, i), 8 * q[i].words;
            && w + 8 <= Room(q[i])
            && ByteAt(q[i := Written(q[i])], k)
               == if s + w <= k < s + w + 8 then FrameByte(q[i], k - s) else ByteAt(q, k)
    decreases i
  {
    WordLeft(q[i]);
    var q' := q[i := Written(q[i])];
    if i > 0 {
      assert q'[1..] == q[1..][i - 1 := Written(q[i])];
      ByteWrite(q[1..], i - 1, if k < Room(q[0]) then 0 else k - Room(q[0]));
    } else {
      assert q'[1..] == q[1..];
    }
  }

  // ---------- ring positions ----------

  lemma {:induction false} MulAtLeast(n: nat, d: int)
    requires d >= 1
    ensures n * d >= n
  {
  }

  lemma {:induction false} ModUnique(x: nat, n: nat, q: nat, r: nat)
    requires n > 0 && r < n && x == n * q + r
    ensures x / n == q && x % n == r
  {
    var d := q - x / n;
    assert n * d == x % n - r;
    assert n * d == -(n * -d);
    if d >= 1 {
      MulAtLeast(n, d);
    } else if d <= -1 {
      MulAtLeast(n, -d);
    }
  }

  /** Slot of the `k`-th byte counted from ring offset `h`. */
  function Slot(h: nat, k: nat, size: nat): nat
    requires h < size && k <= size
  {
    if h + k < size then h + k else h + k - size
  }

  lemma {:induction false} SlotOf(a: nat, k: nat, size: nat, q: nat, h: nat)
    requires h < size && k < size && a == size * q + h
    ensures (a + k) % size == Slot(h, k, size)
    ensures (a + k) / size == if h + k < size then q else q + 1
  {
    if h + k < size {
      ModUnique(a + k, size, q, h + k);
    } else {
      assert size * (q + 1) == size * q + size;
      ModUnique(a + k, size, q + 1, h + k - size);
    }
  }

  lemma {:induction false} SlotIsMod(a: nat, k: nat, size: nat)
    requires k < size
    ensures (a + k) % size == Slot(a % size, k, size)
    ensures (a + k) / size == a / size + if a % size + k < size then 0 else 1
  {
    SlotOf(a, k, size, a / size, a % size);
  }

  /** Ring position of an ever-growing offset. */
  ghost function Offset(a: nat, size: nat): (h: nat)
    requires size > 0
    ensures h < size
    decreases a
  {
    if a < size then a else Offset(a - size, size)
  }

  lemma {:induction false} OffsetIsMod(a: nat, size: nat)
    requires size > 0
    ensures Offset(a, size) == a % size
    decreases a
  {
    if a >= size {
      OffsetIsMod(a - size, size);
      var q, r := (a - size) / size, (a - size) % size;
      assert size * (q + 1) == size * q + size;
      ModUnique(a, size, q + 1, r);
    } else {
      ModUnique(a, size, 0, a);
    }
  }

  lemma {:induction false} OffsetAligned(a: nat, size: nat)
    requires size > 0 && Aligned(size) && Aligned(a)
    ensures Aligned(Offset(a, size))
    decreases a
  {
    if a >= size {
      AlignedSum(size, a - size);
      OffsetAligned(a - size, size);
    }
  }

  lemma {:induction false} OffsetAdd(a: nat, k: nat, size: nat)
    requires 0 < size && k <= size
    ensures Offset(a + k, size) == Slot(Offset(a, size), k, size)
    decreases a
  {
    if a >= size {
      OffsetAdd(a - size, k, size);
    } else if a + k >= size {
      assert Offset(a + k, size) == Offset(a + k - size, size);
    }
  }

  /** Remainder of an offset, as the mailbox computes it. */
  method Position(a: nat, size: nat) returns (p: nat)
    requires size > 0
    ensures p == Offset(a, size)
  {
    OffsetIsMod(a, size);
    p := a % size;
  }

  /** Where byte `k` of a frame of `msgSize` bytes reserved at `off` lands: one
      write when the frame does not cross the end of the ring, two otherwise. */
  method Destination(off: nat, msgSize: nat, k: nat, size: nat) returns (d: nat)
    requires k < msgSize <= size
    ensures d == Slot(Offset(off, size), k, size)
  {
    OffsetIsMod(off, size);
    SlotIsMod(off, msgSize - 1, size);
    if off / size == (off + msgSize - 1) / size {
      d := off % size + k;
    } else {
      var first := size - off % size;
      d := if k < first then off % size + k else k - first;
    }
  }

  /** The ring, read from offset `h`, holds the frames of `q` and zeros everywhere else. */
  ghost predicate Holds(buf: seq<byte>, h: nat, q: seq<InFlight>)
    requires h < |buf| && AllFormed(q)
  {
    forall k | 0 <= k < |buf| :: buf[Slot(h, k, |buf|)] == ByteAt(q, k)
  }

  lemma {:induction false} HoldsReserve(buf: seq<byte>, h: nat, q: seq<InFlight>, m: InFlight)
    requires h < |buf| && AllFormed(q) && Formed(m) && m.words == 0 && Holds(buf, h, q)
    ensures AllFormed(q + [m]) && Size(q + [m]) == Size(q) + Room(m)
    ensures Holds(buf, h, q + [m])
  {
    ByteReserve(q, m, 0);
    forall k | 0 <= k < |buf| ensures buf[Slot(h, k, |buf|)] == ByteAt(q + [m], k) {
      ByteReserve(q, m, k);
    }
  }

  lemma {:induction false} AlignedWord(h: nat, k: nat, size: nat)
    requires h < size && k < size && Aligned(size) && Aligned(h) && Aligned(k)
    ensures Slot(h, k, size) + 8 <= size
  {
    AlignedSum(h, k);
    if h + k < size {
      AlignedGap(h + k, size);
    } else {
      AlignedGap(k, size);
    }
  }

  lemma {:induction false} SlotRange(h: nat, at: nat, k: nat, size: nat)
    requires h < size && at + 8 <= size && k < size && Slot(h, at, size) + 8 <= size
    ensures at <= k < at + 8 <==> Slot(h, at, size) <= Slot(h, k, size) < Slot(h, at, size) + 8
    ensures at <= k < at + 8 ==> Slot(h, k, size) - Slot(h, at, size) == k - at
  {
  }

  lemma {:induction false} HoldsWrite(buf: seq<byte>, buf': seq<byte>, h: nat, q: seq<InFlight>, i: nat, d: nat)
    requires h < |buf| == |buf'| && AllFormed(q) && i < |q| && !Complete(q[i]) && Holds(buf, h, q)
    requires Start(q, i) + Room(q[i]) <= |buf| && 8 * q[i].words + 8 <= Room(q[i])
    requires d == Slot(h, Start(q, i) + 8 * q[i].words, |buf|) && d + 8 <= |buf|
    requires forall x | 0 <= x < |buf'| ::
               buf'[x] == if d <= x < d + 8 then FrameByte(q[i], 8 * q[i].words + x - d) else buf[x]
    ensures AllFormed(q[i := Written(q[i])]) && Size(q[i := Written(q[i])]) == Size(q)
    ensures Holds(buf', h, q[i := Written(q[i])])
  {
    SizeWritten(q, i);
    forall k | 0 <= k < |buf| ensures buf'[Slot(h, k, |buf|)] == ByteAt(q[i := Written(q[i])], k) {
      HoldsWriteAt(buf, buf', h, q, i, d, k);
    }
  }

  lemma {:induction false} HoldsWriteAt(buf: seq<byte>, buf': seq<byte>, h: nat, q: seq<InFlight>, i: nat, d: nat, k: nat)
    requires h < |buf| == |buf'| && AllFormed(q) && i < |q| && !Complete(q[i]) && AllFormed(q[i := Written(q[i])])
    requires Start(q, i) + Room(q[i]) <= |buf| && 8 * q[i].words + 8 <= Room(q[i])
    requires d == Slot(h, Start(q, i) + 8 * q[i].words, |buf|) && d + 8 <= |buf|
    requires k < |buf| && buf[Slot(h, k, |buf|)] == ByteAt(q, k)
    requires forall x | 0 <= x < |buf'| ::
               buf'[x] == if d <= x < d + 8 then FrameByte(q[i], 8 * q[i].words + x - d) else buf[x]
    ensures buf'[Slot(h, k, |buf|)] == ByteAt(q[i := Written(q[i])], k)
  {
    ByteWrite(q, i, k);
    SlotRange(h, Start(q, i) + 8 * q[i].words, k, |buf|);
  }

  // ---------- reading and clearing the first frame ----------

  /** `n` bytes read around the ring, from `k` bytes after offset `h`. */
  ghost function Read(buf: seq<byte>, h: nat, k: nat, n: nat): seq<byte>
    requires h < |buf| && k + n <= |buf|
  {
    seq(n, j requires 0 <= j < n => buf[Slot(h, k + j, |buf|)])
  }

  /** Bytes that do not wrap are read in one piece ... */
  lemma {:induction false} ReadWhole(buf: seq<byte>, h: nat, k: nat, n: nat, at: nat)
    requires h < |buf| && k + n <= |buf| && k < |buf| && at == Slot(h, k, |buf|) && at + n <= |buf|
    ensures buf[at..at + n] == Read(buf, h, k, n)
  {
    var s, r := buf[at..at + n], Read(buf, h, k, n);
    forall j | 0 <= j < n ensures s[j] == r[j] {
      assert Slot(h, k + j, |buf|) == at + j;
    }
  }

  /** ... and bytes that wrap in two. */
  lemma {:induction false} ReadSplit(buf: seq<byte>, h: nat, k: nat, n: nat, at: nat, end: nat)
    requires h < |buf| && k + n <= |buf| && k < |buf| && at == Slot(h, k, |buf|) && at + n == |buf| + end
    ensures end <= n && buf[at..at + (n - end)] + buf[..end] == Read(buf, h, k, n)
  {
    var s, r := buf[at..at + (n - end)] + buf[..end], Read(buf, h, k, n);
    forall j | 0 <= j < n ensures s[j] == r[j] {
      assert Slot(h, k + j, |buf|) == if j < n - end then at + j else j - (n - end);
    }
  }

  /** Inside the first frame one reads what was written, and zeros past that. */
  lemma {:induction false} ReadFrame(buf: seq<byte>, h: nat, q: seq<InFlight>, k: nat, n: nat)
    requires q != [] && AllFormed(q) && h < |buf| && k + n <= Room(q[0]) <= |buf| && Holds(buf, h, q)
    ensures k + n <= 8 * q[0].words ==> Read(buf, h, k, n) == Frame(q[0].payload, q[0].pad)[k..k + n]
    ensures 8 * q[0].words <= k ==> Read(buf, h, k, n) == Zeros(n)
  {
  }

  lemma {:induction false} HeaderRead(buf: seq<byte>, h: nat, q: seq<InFlight>)
    requires AllFormed(q) && h + 8 <= |buf| && Size(q) <= |buf| && Holds(buf, h, q)
    ensures Dec(buf[h..h + 8]) == if q == [] || q[0].words == 0 then 0 else |q[0].payload|
  {
    ReadWhole(buf, h, 0, 8, h);
    if q == [] {
      var r := Read(buf, h, 0, 8);
      forall j | 0 <= j < 8 ensures r[j] == ZERO {
        assert ByteAt(q, j) == ZERO;
      }
      assert r == Zeros(8);
      DecZeros(8);
    } else {
      ReadFrame(buf, h, q, 0, 8);
      FrameParts(q[0].payload, q[0].pad);
      DecZeros(8);
    }
  }

  lemma {:induction false} FooterRead(buf: seq<byte>, h: nat, q: seq<InFlight>, f: nat)
    requires q != [] && AllFormed(q) && h < |buf| && Room(q[0]) <= |buf| && Holds(buf, h, q)
    requires f == Slot(h, Room(q[0]) - 8, |buf|) && f + 8 <= |buf|
    ensures Dec(buf[f..f + 8]) == if Complete(q[0]) then |q[0].payload| else 0
  {
    var c := Room(q[0]) - 8;
    assert buf[f..f + 8] == Read(buf, h, c, 8) by { ReadWhole(buf, h, c, 8, f); }
    if Complete(q[0]) {
      assert Read(buf, h, c, 8) == Header(|q[0].payload|) by {
        ReadFrame(buf, h, q, c, 8);
        FrameParts(q[0].payload, q[0].pad);
      }
    } else {
      assert Read(buf, h, c, 8) == Zeros(8) by {
        WordLeft(q[0]);
        ReadFrame(buf, h, q, c, 8);
      }
      DecZeros(8);
    }
  }

  /** The two ways the payload is copied out. */
  lemma {:induction false} PayloadRead(buf: seq<byte>, h: nat, q: seq<InFlight>, start: nat, end: nat)
    requires q != [] && AllFormed(q) && h < |buf| && Room(q[0]) <= |buf| && Holds(buf, h, q) && Complete(q[0])
    requires start == Slot(h, 8, |buf|) && end == Slot(h, 8 + |q[0].payload|, |buf|)
    ensures start <= end ==> (start + |q[0].payload| <= |buf| && buf[start..start + |q[0].payload|] == q[0].payload)
    ensures start > end ==> (end <= |q[0].payload| && start + (|q[0].payload| - end) <= |buf|
              && buf[start..start + (|q[0].payload| - end)] + buf[..end] == q[0].payload)
  {
    var n := |q[0].payload|;
    ReadFrame(buf, h, q, 8, n);
    FrameParts(q[0].payload, q[0].pad);
    if start <= end {
      ReadWhole(buf, h, 8, n, start);
    } else {
      ReadSplit(buf, h, 8, n, start, end);
    }
  }

  /** Position `x` of the ring belongs to the first `n` bytes after offset `h`. */
  predicate Inside(h: nat, n: nat, x: nat, size: nat)
    requires h < size && x < size
  {
    (if x >= h then x - h else x - h + size) < n
  }

  lemma {:induction false} CeilShift(a: nat, b: nat)
    requires Aligned(b) && b <= a
    ensures Ceil8(a) >= b && Ceil8(a - b) == Ceil8(a) - b
  {
    AlignedSum(b, Ceil8(a) - b);
    CeilIs(a - b, Ceil8(a) - b);
  }

  /** The positions FetchMsgFromRecvBuf sets to zero. */
  ghost predicate Erased(h: nat, len: nat, start: nat, end: nat, f: nat, x: nat) {
    || (if start > end then start <= x < start + len - end || x < Ceil8(end) else start <= x < start + Ceil8(len))
    || h <= x < h + 8
    || f <= x < f + 8
  }

  /** Those positions are exactly the first frame, in both branches. */
  lemma {:induction false} ClearedFrame(h: nat, len: nat, size: nat, x: nat)
    requires h < size && Aligned(size) && Aligned(h) && FrameSize(len) <= size && x < size
    ensures var c := Ceil8(len);
            var start, end, f := Slot(h, 8, size), Slot(h, 8 + len, size), Slot(h, 8 + c, size);
            && (start > end ==> end <= len && start + (len - end) <= size && Ceil8(end) <= size)
            && (start <= end ==> start + c <= size)
            && h + 8 <= size && f + 8 <= size
            && (Erased(h, len, start, end, f, x) <==> Inside(h, FrameSize(len), x, size))
  {
    AlignedWord(h, 0, size);
    AlignedSum(8, Ceil8(len));
    AlignedWord(h, 8 + Ceil8(len), size);
    if h + 8 < size && h + 8 + len >= size {
      AlignedSum(h + 8, size - h - 8);
      AlignedSum(h, 8);
      CeilShift(len, size - h - 8);
    } else if h + 8 < size && h + 8 + len < size {
      AlignedSum(h, 8 + Ceil8(len));
      if h + 8 + Ceil8(len) > size { AlignedGap(size, h + 8 + Ceil8(len)); }
    }
  }

  lemma {:induction false} HoldsFetch(buf: seq<byte>, buf': seq<byte>, h: nat, q: seq<InFlight>)
    requires q != [] && AllFormed(q) && h < |buf| == |buf'| && Size(q) <= |buf| && Holds(buf, h, q)
    requires forall x | 0 <= x < |buf| :: buf'[x] == if Inside(h, Room(q[0]), x, |buf|) then ZERO else buf[x]
    ensures AllFormed(q[1..]) && Holds(buf', Slot(h, Room(q[0]), |buf|), q[1..])
  {
    var n := Room(q[0]);
    forall k | 0 <= k < |buf| ensures buf'[Slot(Slot(h, n, |buf|), k, |buf|)] == ByteAt(q[1..], k) {
      if n + k < |buf| {
        assert Slot(Slot(h, n, |buf|), k, |buf|) == Slot(h, n + k, |buf|);
        assert buf[Slot(h, n + k, |buf|)] == ByteAt(q, n + k);
      } else {
        assert Slot(Slot(h, n, |buf|), k, |buf|) == Slot(h, n + k - |buf|, |buf|);
        ZeroBeyond(q[1..], k);
      }
    }
  }

  method Clear(buf: array<byte>, at: nat, n: nat)
    requires at + n <= buf.Length
    modifies buf
    ensures forall x | 0 <= x < buf.Length :: buf[x] == if at <= x < at + n then ZERO else old(buf[x])
  {
    for j := 0 to n
      invariant forall x | 0 <= x < buf.Length :: buf[x] == if at <= x < at + j then ZERO else old(buf[x])
    {
      buf[at + j] := ZERO;
    }
  }

  /** Clears payload, padding, header and footer of a frame. */
  method ClearFrame(rbf: array<byte>, h: nat, len: nat, start: nat, end: nat, f: nat)
    requires h < rbf.Length && Aligned(rbf.Length) && Aligned(h) && FrameSize(len) <= rbf.Length
    requires start == Slot(h, 8, rbf.Length) && end == Slot(h, 8 + len, rbf.Length)
    requires f == Slot(h, 8 + Ceil8(len), rbf.Length)
    modifies rbf
    ensures forall x | 0 <= x < rbf.Length ::
              rbf[x] == if Inside(h, FrameSize(len), x, rbf.Length) then ZERO else old(rbf[x])
  {
    forall x | 0 <= x < rbf.Length ensures Erased(h, len, start, end, f, x) <==> Inside(h, FrameSize(len), x, rbf.Length) {
      ClearedFrame(h, len, rbf.Length, x);
    }
    ClearedFrame(h, len, rbf.Length, 0);
    if start > end {
      Clear(rbf, start, len - end);
      var over := Ceil(end);
      Clear(rbf, 0, over);
    } else {
      var c := Ceil(len);
      Clear(rbf, start, c);
    }
    Clear(rbf, h, 8);
    Clear(rbf, f, 8);
    assert forall x | 0 <= x < rbf.Length :: rbf[x] == if Erased(h, len, start, end, f, x) then ZERO else old(rbf[x]);
  }

  method CopyWord(buf: array<byte>, d: nat, frame: seq<byte>, w: nat)
    requires d + 8 <= buf.Length && w + 8 <= |frame|
    modifies buf
    ensures forall x | 0 <= x < buf.Length :: buf[x] == if d <= x < d + 8 then frame[w + x - d] else old(buf[x])
  {
    for j := 0 to 8
      invariant forall x | 0 <= x < buf.Length :: buf[x] == if d <= x < d + j then frame[w + x - d] else old(buf[x])
    {
      buf[d + j] := frame[w + j];
    }
  }

  lemma {:induction false} SlotAdd(a: nat, b: nat, k: nat, size: nat)
    requires 0 < size && b + k < size
    ensures Slot(Offset(a + b, size), k, size) == Slot(Offset(a, size), b + k, size)
  {
    OffsetAdd(a, b, size);
    OffsetAdd(a, b + k, size);
    OffsetAdd(a + b, k, size);
  }

  lemma {:induction false} WordRoom(q: seq<InFlight>, i: nat, size: nat)
    requires i < |q| && AllFormed(q) && !Complete(q[i]) && Size(q) <= size
    ensures 8 * q[i].words + 8 <= Room(q[i]) == |Frame(q[i].payload, q[i].pad)| <= size
    ensures Start(q, i) + Room(q[i]) <= size && Aligned(Start(q, i))
  {
    WordLeft(q[i]);
    StartBounds(q, i);
    FrameParts(q[i].payload, q[i].pad);
  }

  /** The next word of frame `i` goes to its place counted from the head, without wrapping. */
  lemma {:induction false} WordSpot(q: seq<InFlight>, i: nat, head: nat, size: nat)
    requires i < |q| && AllFormed(q) && !Complete(q[i]) && 0 < size && Size(q) <= size && Aligned(size) && Aligned(head)
    ensures Start(q, i) + 8 * q[i].words < size
    ensures var d := Slot(Offset(head + Start(q, i), size), 8 * q[i].words, size);
            d == Slot(Offset(head, size), Start(q, i) + 8 * q[i].words, size) && d + 8 <= size
  {
    WordRoom(q, i, size);
    AlignedWords(q[i].words);
    AlignedSum(Start(q, i), 8 * q[i].words);
    SlotAdd(head, Start(q, i), 8 * q[i].words, size);
    WordFits(head, Start(q, i) + 8 * q[i].words, size);
  }

  lemma {:induction false} WordFits(head: nat, k: nat, size: nat)
    requires 0 < size && k < size && Aligned(size) && Aligned(head) && Aligned(k)
    ensures Slot(Offset(head, size), k, size) + 8 <= size
  {
    OffsetAligned(head, size);
    AlignedWord(Offset(head, size), k, size);
  }

  lemma {:induction false} FrameSpots(head: nat, len: nat, size: nat)
    requires Aligned(size) && Aligned(head) && FrameSize(len) <= size
    ensures Aligned(Offset(head, size))
    ensures Offset(head + 8, size) == Slot(Offset(head, size), 8, size)
    ensures Offset(head + 8 + len, size) == Slot(Offset(head, size), 8 + len, size)
    ensures Offset(head + (8 + Ceil8(len)), size) == Slot(Offset(head, size), 8 + Ceil8(len), size)
  {
    OffsetAligned(head, size);
    OffsetAdd(head, 8, size);
    OffsetAdd(head, 8 + len, size);
    OffsetAdd(head, 8 + Ceil8(len), size);
  }

  lemma {:induction false} AdvanceHead(head: nat, c: nat, size: nat)
    requires Aligned(head) && Aligned(c) && 0 < size && 16 + c <= size
    ensures Aligned(head + 2 * 8 + c) && Offset(head + 2 * 8 + c, size) == Slot(Offset(head, size), 16 + c, size)
  {
    OffsetAdd(head, 16 + c, size);
    AlignedSum(head, 16 + c);
    AlignedSum(c, 16);
  }

  /** With the first frame cleared, the ring read from the new head holds the other frames. */
  lemma {:induction false} FrameTaken(buf: seq<byte>, buf': seq<byte>, head: nat, q: seq<InFlight>, c: nat)
    requires 0 < |buf| == |buf'| && Aligned(head) && q != [] && AllFormed(q) && Size(q) <= |buf| && c == Ceil8(|q[0].payload|)
    requires Holds(buf, Offset(head, |buf|), q)
    requires forall x | 0 <= x < |buf| ::
               buf'[x] == if Inside(Offset(head, |buf|), FrameSize(|q[0].payload|), x, |buf|) then ZERO else buf[x]
    ensures Aligned(head + 2 * 8 + c) && AllFormed(q[1..]) && Size(q) == Size(q[1..]) + 2 * 8 + c
    ensures Holds(buf', Offset(head + 2 * 8 + c, |buf|), q[1..])
  {
    assert Room(q[0]) == 16 + c;
    AdvanceHead(head, c, |buf|);
    HoldsFetch(buf, buf', Offset(head, |buf|), q);
  }

  method CopyOut(buf: array<byte>, start: nat, end: nat, len: nat) returns (msg: seq<byte>)
    requires start > end ==> end <= len && start + (len - end) <= buf.Length
    requires start <= end ==> start + len <= buf.Length
    ensures start > end ==> msg == buf[..][start..start + (len - end)] + buf[..][..end]
    ensures start <= end ==> msg == buf[..][start..start + len]
  {
    if start > end {
      msg := buf[start..start + (len - end)] + buf[..end];
    } else {
      msg := buf[start..start + len];
    }
  }

  /** Copies the payload of the first frame out, in one piece or two. */
  method ReadPayload(rbf: array<byte>, head: nat, len: nat, ghost q: seq<InFlight>) returns (msg: seq<byte>)
    requires Aligned(rbf.Length) && Aligned(head) && q != [] && AllFormed(q) && Complete(q[0])
    requires len == |q[0].payload| && FrameSize(len) <= rbf.Length && Holds(rbf[..], Offset(head, rbf.Length), q)
    ensures msg == q[0].payload
  {
    var start := Position(head + 8, rbf.Length);
    var end := Position(head + 8 + len, rbf.Length);
    FrameSpots(head, len, rbf.Length);
    PayloadRead(rbf[..], Offset(head, rbf.Length), q, start, end);
    msg := CopyOut(rbf, start, end, len);
  }

  /** Zeroes the first frame. */
  method ClearFirst(rbf: array<byte>, head: nat, len: nat)
    requires Aligned(rbf.Length) && Aligned(head) && FrameSize(len) <= rbf.Length
    modifies rbf
    ensures forall x | 0 <= x < rbf.Length ::
              rbf[x] == if Inside(Offset(head, rbf.Length), FrameSize(len), x, rbf.Length) then ZERO else old(rbf[x])
  {
    var hdr := Position(head, rbf.Length);
    var start := Position(head + 8, rbf.Length);
    var end := Position(head + 8 + len, rbf.Length);
    var c := Ceil(len);
    var f := Position(head + (8 + c), rbf.Length);
    FrameSpots(head, len, rbf.Length);
    ClearFrame(rbf, hdr, len, start, end, f);
  }

  /** Writes one word of frame `i` where the reservation put it. */
  method PutWord(rbf: array<byte>, off: nat, frame: seq<byte>, word: nat, ghost q: seq<InFlight>, ghost i: nat, ghost head: nat)
    requires 0 < rbf.Length && Aligned(rbf.Length) && Aligned(head) && AllFormed(q) && Size(q) <= rbf.Length
    requires i < |q| && off == head + Start(q, i) && q[i].words == word && !Complete(q[i])
    requires frame == Frame(q[i].payload, q[i].pad) && Holds(rbf[..], Offset(head, rbf.Length), q)
    modifies rbf
    ensures AllFormed(q[i := Written(q[i])]) && Size(q[i := Written(q[i])]) == Size(q)
    ensures Holds(rbf[..], Offset(head, rbf.Length), q[i := Written(q[i])])
  {
    WordRoom(q, i, rbf.Length);
    WordSpot(q, i, head, rbf.Length);
    var d := Destination(off, |frame|, 8 * word, rbf.Length);
    ghost var before := rbf[..];
    CopyWord(rbf, d, frame, 8 * word);
    HoldsWrite(before, rbf[..], Offset(head, rbf.Length), q, i, d);
  }

  // ---------- the ring object ----------

  /** The ring without its bytes: a queue of messages and the offsets. */
  datatype Net = Net(tail: nat, seen: nat, head: nat, published: nat, pending: seq<nat>, queue: seq<InFlight>)

  /** The first message leaves; the head is published when it is more than a
      sixteenth ahead of the one published last. */
  ghost function Taken(v: Net, size: nat): Net
    requires v.queue != []
  {
    var head := v.head + Room(v.queue[0]);
    var late := head > v.published + size / 16;
    Net(v.tail, v.seen, head, if late then head else v.published, if late then v.pending + [head] else v.pending, v.queue[1..])
  }

  /** The heads on their way to the sender ascend from the one it has seen to
      the one published last. */
  ghost predicate OnTheWay(seen: nat, pending: seq<nat>, published: nat) {
    && (forall i | 0 <= i < |pending| :: seen <= pending[i] <= published)
    && (forall i, j | 0 <= i < j < |pending| :: pending[i] <= pending[j])
    && published == if pending == [] then seen else pending[|pending| - 1]
  }

  class Ring {
    const rbf: array<byte>
    var tail: nat           // sender: next offset to reserve
    var seen: nat           // sender: last head delivered to it
    var head: nat           // receiver: next offset to read
    var published: nat      // receiver: last head it wrote to the sender
    var pending: seq<nat>   // network: heads on their way to the sender
    ghost var queue: seq<InFlight>

    ghost predicate Valid()
      reads this, rbf
    {
      && rbf.Length > 0 && Aligned(rbf.Length) && Aligned(head)
      && seen <= published <= head <= tail <= seen + rbf.Length
      && head - published <= rbf.Length / 16 && OnTheWay(seen, pending, published)
      && AllFormed(queue) && tail == head + Size(queue)
      && Holds(rbf[..], Offset(head, rbf.Length), queue)
    }

    ghost function View(): Net
      reads this
    {
      Net(tail, seen, head, published, pending, queue)
    }

    constructor (size: nat)
      requires size > 0 && Aligned(size)
      ensures Valid() && fresh(rbf) && rbf.Length == size && View() == Net(0, 0, 0, 0, [], [])
    {
      rbf := new byte[size](_ => ZERO);
      tail, seen, head, published, pending := 0, 0, 0, 0, [];
      queue := [];
    }

    /** First half of SendData: refuse when the frame may not fit, otherwise move the tail. */
    method Reserve(payload: seq<byte>, ghost pad: seq<byte>) returns (off: Option<nat>)
      requires Valid() && Formed(InFlight(payload, pad, 0))
      modifies this`tail, this`queue
      ensures Valid()
      ensures off.None? <==> rbf.Length < old(tail) - seen + FrameSize(|payload|)
      ensures off.None? ==> queue == old(queue) && tail == old(tail)
      ensures off.Some? ==> queue == old(queue) + [InFlight(payload, pad, 0)]
      ensures off.Some? ==> off.value == old(tail) && tail == old(tail) + FrameSize(|payload|)
    {
      var c := Ceil(|payload|);
      var msgSize := 8 + c + 8;
      if rbf.Length < tail - seen + msgSize {
        return None;
      }
      off := Some(tail);
      HoldsReserve(rbf[..], Offset(head, rbf.Length), queue, InFlight(payload, pad, 0));
      tail := tail + msgSize;
      queue := queue + [InFlight(payload, pad, 0)];
    }

    /** Second half of SendData: the next word of a reserved frame reaches the ring. */
    method WriteWord(off: nat, frame: seq<byte>, word: nat, ghost i: nat)
      requires Valid() && i < |queue| && off == head + Start(queue, i)
      requires queue[i].words == word && !Complete(queue[i])
      requires frame == Frame(queue[i].payload, queue[i].pad)
      modifies this`queue, rbf
      ensures Valid()
      ensures queue == old(queue)[i := Written(old(queue)[i])]
    {
      PutWord(rbf, off, frame, word, queue, i, head);
      queue := queue[i := Written(queue[i])];
    }

    /** Length of the first frame, 0 when there is none (CheckRecvBuf). */
    method Header() returns (len: nat)
      requires Valid()
      ensures len == if queue == [] || queue[0].words == 0 then 0 else |queue[0].payload|
    {
      WordFits(head, 0, rbf.Length);
      HeaderRead(rbf[..], Offset(head, rbf.Length), queue);
      var hdr := Position(head, rbf.Length);
      len := Dec(rbf[..][hdr..hdr + 8]);
    }

    /** Whether the footer of the first frame is in place; until then it reads as zero. */
    method FooterIn(len: nat) returns (done: bool)
      requires Valid() && queue != [] && len == |queue[0].payload|
      ensures done <==> Complete(queue[0])
    {
      var c := Ceil(len);
      var to := 8 + c;
      var f := Position(head + to, rbf.Length);
      OffsetAdd(head, to, rbf.Length);
      WordFits(head, to, rbf.Length);
      FooterRead(rbf[..], Offset(head, rbf.Length), queue, f);
      var footer := Dec(rbf[..][f..f + 8]);
      assert footer == 0 || footer == len;
      done := footer == len;
    }

    /** FetchMsgFromRecvBuf: nothing while the first frame is not completely
        written, otherwise its payload; the frame is cleared and the head moves. */
    method Fetch() returns (msg: Option<seq<byte>>)
      requires Valid()
      modifies this`head, this`published, this`pending, this`queue, rbf
      ensures Valid()
      ensures msg.Some? <==> old(queue) != [] && Complete(old(queue)[0])
      ensures msg.Some? ==> msg.value == old(queue)[0].payload && View() == Taken(old(View()), rbf.Length)
      ensures msg.Some? ==> head == old(head) + FrameSize(|msg.value|)
      ensures msg.Some? ==> if head - old(published) > rbf.Length / 16 then published == head && pending == old(pending) + [head]
                            else published == old(published) && pending == old(pending)
      ensures msg.None? ==> View() == old(View()) && rbf[..] == old(rbf[..])
    {
      var len := Header();
      if len == 0 {
        return None;
      }
      var done := FooterIn(len);
      if !done {
        return None;
      }
      var payload := TakeFirst(len);
      msg := Some(payload);
    }

    /** Copy the first frame out, clear it, and move the head. */
    method TakeFirst(len: nat) returns (payload: seq<byte>)
      requires Valid() && queue != [] && Complete(queue[0]) && len == |queue[0].payload|
      modifies this`head, this`published, this`pending, this`queue, rbf
      ensures Valid() && payload == old(queue)[0].payload && View() == Taken(old(View()), rbf.Length)
    {
      ghost var buf := rbf[..];
      payload := ReadPayload(rbf, head, len, queue);
      ClearFirst(rbf, head, len);
      var c := Ceil(len);
      FrameTaken(buf, rbf[..], head, queue, c);
      head := head + 2 * 8 + c;
      queue := queue[1..];
      Publish();
    }

    /** The head goes out to the sender once it is far enough ahead. */
    method Publish()
      requires published <= head && seen <= published && OnTheWay(seen, pending, published)
      modifies this`published, this`pending
      ensures OnTheWay(seen, pending, published) && published <= head && head - published <= rbf.Length / 16
      ensures if head > old(published) + rbf.Length / 16 then published == head && pending == old(pending) + [head]
              else published == old(published) && pending == old(pending)
    {
      if head - published > rbf.Length / 16 {
        published, pending := head, pending + [head];
      }
    }

    /** One of the heads on their way arrives at the sender; those written before it are past. */
    method Deliver(k: nat)
      requires Valid() && k < |pending|
      modifies this`seen, this`pending
      ensures Valid() && View() == old(View()).(seen := old(pending)[k], pending := old(pending)[k + 1..])
    {
      seen, pending := pending[k], pending[k + 1..];
    }
  }

  // ---------- progress ----------

  /** Fetch until nothing is left, when every frame is completely written. */
  method Drain(ring: Ring) returns (msgs: seq<seq<byte>>)
    requires ring.Valid() && forall i | 0 <= i < |ring.queue| :: Complete(ring.queue[i])
    modifies ring`head, ring`published, ring`pending, ring`queue, ring.rbf
    ensures ring.Valid() && ring.queue == [] && |msgs| == |old(ring.queue)|
    ensures forall i | 0 <= i < |msgs| :: msgs[i] == old(ring.queue)[i].payload
  {
    ghost var q := ring.queue;
    msgs := [];
    while true
      invariant ring.Valid() && |msgs| <= |q| && ring.queue == q[|msgs|..]
      invariant forall i | 0 <= i < |msgs| :: msgs[i] == q[i].payload
      decreases |q| - |msgs|
    {
      var m := ring.Fetch();
      if m.None? {
        return;
      }
      msgs := msgs + [m.value];
    }
  }

  /** Once the ring is drained and the last head update delivered, every frame of at
      most the ring size less a sixteenth is accepted, however far the
      published head lags. */
  method SendWhenDrained(ring: Ring, payload: seq<byte>, ghost pad: seq<byte>) returns (msgs: seq<seq<byte>>, off: Option<nat>)
    requires ring.Valid() && Formed(InFlight(payload, pad, 0))
    requires forall i | 0 <= i < |ring.queue| :: Complete(ring.queue[i])
    requires FrameSize(|payload|) <= ring.rbf.Length - ring.rbf.Length / 16
    modifies ring, ring.rbf
    ensures ring.Valid() && off.Some? && ring.queue == [InFlight(payload, pad, 0)]
    ensures |msgs| == |old(ring.queue)| && forall i | 0 <= i < |msgs| :: msgs[i] == old(ring.queue)[i].payload
  {
    msgs := Drain(ring);
    if ring.pending != [] {
      ring.Deliver(|ring.pending| - 1);
    }
    off := ring.Reserve(payload, pad);
  }

  // ---------- whole runs ----------

  lemma {:induction false} DecInjective(s: seq<byte>, t: seq<byte>)
    requires |s| == |t| && Dec(s) == Dec(t)
    ensures s == t
    decreases |s|
  {
    if s != [] {
      DecInjective(s[1..], t[1..]);
      assert s == [s[0]] + s[1..] && t == [t[0]] + t[1..];
    }
  }

  method EncodeBytes(n: nat, k: nat) returns (s: seq<byte>)
    requires Fits(n, k)
    ensures |s| == k && Dec(s) == n
    decreases k
  {
    if k == 0 {
      return [];
    }
    var rest := EncodeBytes(n / 256, k - 1);
    s := [Byte(n % 256)] + rest;
    assert s[1..] == rest;
  }

  /** The eight bytes of a 64-bit word, least significant first. */
  method Encode(n: nat) returns (s: seq<byte>)
    requires n < TWO64
    ensures s == Header(n)
  {
    WordFitsIn8(n);
    s := EncodeBytes(n, 8);
    DecInjective(s, Header(n));
  }

  /** The send buffer of SendData: header, payload, whatever the buffer held before, footer. */
  method BuildFrame(payload: seq<byte>, stale: seq<byte>) returns (frame: seq<byte>)
    requires Formed(InFlight(payload, stale, 0))
    ensures frame == Frame(payload, stale)
  {
    var h := Encode(|payload|);
    frame := h + payload + stale + h;
  }

  ghost function Payloads(q: seq<InFlight>): seq<seq<byte>> {
    seq(|q|, i requires 0 <= i < |q| => q[i].payload)
  }

  lemma {:induction false} StartAppend(q: seq<InFlight>, m: InFlight, i: nat)
    requires i <= |q|
    ensures Start(q + [m], i) == Start(q, i)
    ensures Start(q, |q|) == Size(q)
    decreases |q|
  {
    if q != [] {
      assert (q + [m])[1..] == q[1..] + [m];
      StartAppend(q[1..], m, if i == 0 then 0 else i - 1);
    }
  }

  lemma {:induction false} StartWritten(q: seq<InFlight>, i: nat, j: nat)
    requires i < |q| && j <= |q|
    ensures Start(q[i := Written(q[i])], j) == Start(q, j)
    decreases i
  {
    var q' := q[i := Written(q[i])];
    if j > 0 {
      if i == 0 {
        assert q'[1..] == q[1..];
      } else {
        assert q'[1..] == q[1..][i - 1 := Written(q[i])];
        StartWritten(q[1..], i - 1, j - 1);
      }
    }
  }

  /** What one sender remembers between reserving and writing. */
  datatype Sender = Sender(off: nat, frame: seq<byte>, word: nat)

  ghost predicate Matches(senders: seq<Sender>, q: seq<InFlight>, head: nat)
    requires AllFormed(q)
  {
    && |senders| == |q|
    && forall i | 0 <= i < |q| ::
      senders[i] == Sender(head + Start(q, i), Frame(q[i].payload, q[i].pad), q[i].words)
  }

  lemma {:induction false} MatchesReserve(senders: seq<Sender>, q: seq<InFlight>, head: nat, m: InFlight)
    requires AllFormed(q) && Formed(m) && Matches(senders, q, head) && m.words == 0
    ensures AllFormed(q + [m])
    ensures Matches(senders + [Sender(head + Size(q), Frame(m.payload, m.pad), 0)], q + [m], head)
  {
    forall i | 0 <= i <= |q| ensures Start(q + [m], i) == Start(q, i) {
      StartAppend(q, m, i);
    }
    StartAppend(q, m, 0);
  }

  lemma {:induction false} MatchesWrite(senders: seq<Sender>, q: seq<InFlight>, head: nat, i: nat)
    requires AllFormed(q) && Matches(senders, q, head) && i < |q| && !Complete(q[i])
    ensures AllFormed(q[i := Written(q[i])])
    ensures Matches(senders[i := senders[i].(word := senders[i].word + 1)], q[i := Written(q[i])], head)
  {
    WordLeft(q[i]);
    forall j | 0 <= j < |q| ensures Start(q[i := Written(q[i])], j) == Start(q, j) {
      StartWritten(q, i, j);
    }
  }

  lemma {:induction false} MatchesFetch(senders: seq<Sender>, q: seq<InFlight>, head: nat)
    requires AllFormed(q) && q != [] && Matches(senders, q, head)
    ensures AllFormed(q[1..]) && Matches(senders[1..], q[1..], head + Room(q[0]))
  {
    forall i | 0 <= i < |q| - 1 ensures Start(q, i + 1) == Room(q[0]) + Start(q[1..], i) {
    }
  }

  /** A step of any sender, of the receiver, or of the network. */
  datatype Step = Send(payload: seq<byte>, stale: seq<byte>) | Write(sender: nat) | Receive | Deliver(k: nat)

  ghost predicate Sendable(step: Step) {
    step.Send? ==> Formed(InFlight(step.payload, step.stale, 0))
  }

  /** What a step answers: whether a message was accepted, what was fetched. */
  datatype Answer = Accepted(payload: seq<byte>) | Refused | Fetched(payload: seq<byte>) | Nothing | Silent

  /** The same steps on a plain queue. */
  ghost function Next(v: Net, size: nat, step: Step): Net {
    match step
    case Send(payload, stale) =>
      if v.tail + FrameSize(|payload|) > v.seen + size then v
      else v.(tail := v.tail + FrameSize(|payload|), queue := v.queue + [InFlight(payload, stale, 0)])
    case Write(i) =>
      if i < |v.queue| && !Complete(v.queue[i]) then v.(queue := v.queue[i := Written(v.queue[i])]) else v
    case Receive =>
      if v.queue != [] && Complete(v.queue[0]) then Taken(v, size) else v
    case Deliver(k) =>
      if k < |v.pending| then v.(seen := v.pending[k], pending := v.pending[k + 1..]) else v
  }

  ghost function Reply(v: Net, size: nat, step: Step): Answer {
    match step
    case Send(payload, stale) => if v.tail + FrameSize(|payload|) > v.seen + size then Refused else Accepted(payload)
    case Receive => if v.queue != [] && Complete(v.queue[0]) then Fetched(v.queue[0].payload) else Nothing
    case _ => Silent
  }

  ghost function After(size: nat, steps: seq<Step>): Net {
    if steps == [] then Net(0, 0, 0, 0, [], [])
    else Next(After(size, steps[..|steps| - 1]), size, steps[|steps| - 1])
  }

  ghost function Replies(size: nat, steps: seq<Step>): seq<Answer> {
    if steps == [] then []
    else Replies(size, steps[..|steps| - 1]) + [Reply(After(size, steps[..|steps| - 1]), size, steps[|steps| - 1])]
  }

  ghost function AllAccepted(answers: seq<Answer>): seq<seq<byte>> {
    if answers == [] then []
    else AllAccepted(answers[..|answers| - 1]) +
         if answers[|answers| - 1].Accepted? then [answers[|answers| - 1].payload] else []
  }

  ghost function AllFetched(answers: seq<Answer>): seq<seq<byte>> {
    if answers == [] then []
    else AllFetched(answers[..|answers| - 1]) +
         if answers[|answers| - 1].Fetched? then [answers[|answers| - 1].payload] else []
  }

  lemma {:induction false} AnswersSnoc(answers: seq<Answer>, a: Answer)
    ensures AllAccepted(answers + [a]) == AllAccepted(answers) + if a.Accepted? then [a.payload] else []
    ensures AllFetched(answers + [a]) == AllFetched(answers) + if a.Fetched? then [a.payload] else []
  {
  }

  /** One step of the plain queue keeps first in, first out. */
  lemma {:induction false} FifoStep(v: Net, size: nat, step: Step, taken: seq<seq<byte>>, given: seq<seq<byte>>)
    requires taken == given + Payloads(v.queue)
    ensures var a := Reply(v, size, step);
      taken + (if a.Accepted? then [a.payload] else []) ==
      given + (if a.Fetched? then [a.payload] else []) + Payloads(Next(v, size, step).queue)
  {
    var w := Next(v, size, step);
    match step
    case Send(payload, stale) =>
      if v.tail + FrameSize(|payload|) <= v.seen + size {
        assert Payloads(w.queue) == Payloads(v.queue) + [payload];
      }
    case Write(i) =>
      assert Payloads(w.queue) == Payloads(v.queue);
    case Receive =>
      if v.queue != [] && Complete(v.queue[0]) {
        assert Payloads(v.queue) == [v.queue[0].payload] + Payloads(w.queue);
      }
    case Deliver(_) =>
  }

  /** For every interleaving of reservations, word writes, fetches and head
      deliveries: what was fetched, followed by what is still in the ring, is
      what was accepted, in reservation order. */
  lemma {:induction false} FirstInFirstOut(size: nat, steps: seq<Step>)
    ensures AllAccepted(Replies(size, steps)) == AllFetched(Replies(size, steps)) + Payloads(After(size, steps).queue)
    decreases |steps|
  {
    if steps != [] {
      var init, step := steps[..|steps| - 1], steps[|steps| - 1];
      FirstInFirstOut(size, init);
      AnswersSnoc(Replies(size, init), Reply(After(size, init), size, step));
      FifoStep(After(size, init), size, step, AllAccepted(Replies(size, init)), AllFetched(Replies(size, init)));
    }
  }

  /** The byte ring answers every step of every interleaving as the plain queue does. */
  method Run(size: nat, steps: seq<Step>) returns (answers: seq<Answer>, ring: Ring)
    requires size > 0 && Aligned(size)
    requires forall i | 0 <= i < |steps| :: Sendable(steps[i])
    ensures ring.Valid() && ring.View() == After(size, steps) && answers == Replies(size, steps)
    ensures AllAccepted(answers) == AllFetched(answers) + Payloads(ring.queue)
  {
    ring := new Ring(size);
    answers := [];
    var senders: seq<Sender> := [];
    for n := 0 to |steps|
      invariant fresh(ring) && fresh(ring.rbf) && ring.Valid() && ring.rbf.Length == size
      invariant Matches(senders, ring.queue, ring.head)
      invariant ring.View() == After(size, steps[..n]) && answers == Replies(size, steps[..n])
    {
      assert Sendable(steps[n]) && steps[..n + 1][..n] == steps[..n];
      var answer;
      answer, senders := TakeStep(ring, steps[n], senders);
      answers := answers + [answer];
    }
    assert steps[..|steps|] == steps;
    FirstInFirstOut(size, steps);
  }

  method TakeStep(ring: Ring, step: Step, senders: seq<Sender>) returns (answer: Answer, senders': seq<Sender>)
    requires ring.Valid() && Sendable(step) && Matches(senders, ring.queue, ring.head)
    modifies ring, ring.rbf
    ensures ring.Valid() && Matches(senders', ring.queue, ring.head)
    ensures ring.View() == Next(old(ring.View()), ring.rbf.Length, step)
    ensures answer == Reply(old(ring.View()), ring.rbf.Length, step)
  {
    answer, senders' := Silent, senders;
    match step
    case Send(payload, stale) =>
      answer, senders' := SendStep(ring, payload, stale, senders);
    case Write(i) =>
      if i < |senders| {
        senders' := WriteOne(ring, i, senders);
      }
    case Receive =>
      answer, senders' := ReceiveStep(ring, senders);
    case Deliver(k) =>
      if k < |ring.pending| {
        ring.Deliver(k);
      }
  }

  method SendStep(ring: Ring, payload: seq<byte>, stale: seq<byte>, senders: seq<Sender>)
    returns (answer: Answer, senders': seq<Sender>)
    requires ring.Valid() && Formed(InFlight(payload, stale, 0)) && Matches(senders, ring.queue, ring.head)
    modifies ring
    ensures ring.Valid() && Matches(senders', ring.queue, ring.head)
    ensures ring.View() == Next(old(ring.View()), ring.rbf.Length, Send(payload, stale))
    ensures answer == Reply(old(ring.View()), ring.rbf.Length, Send(payload, stale))
  {
    answer, senders' := Refused, senders;
    ghost var q := ring.queue;
    var off := ring.Reserve(payload, stale);
    if off.Some? {
      var frame := BuildFrame(payload, stale);
      answer := Accepted(payload);
      senders' := senders + [Sender(off.value, frame, 0)];
      MatchesReserve(senders, q, ring.head, InFlight(payload, stale, 0));
    }
  }

  method WriteOne(ring: Ring, i: nat, senders: seq<Sender>) returns (senders': seq<Sender>)
    requires ring.Valid() && Matches(senders, ring.queue, ring.head) && i < |senders|
    modifies ring, ring.rbf
    ensures ring.Valid() && Matches(senders', ring.queue, ring.head)
    ensures ring.View() == Next(old(ring.View()), ring.rbf.Length, Write(i))
  {
    senders' := senders;
    var s := senders[i];
    ghost var q := ring.queue;
    FrameParts(q[i].payload, q[i].pad);
    if 8 * s.word < |s.frame| {
      ring.WriteWord(s.off, s.frame, s.word, i);
      senders' := senders[i := s.(word := s.word + 1)];
      MatchesWrite(senders, q, ring.head, i);
    }
  }

  method ReceiveStep(ring: Ring, senders: seq<Sender>) returns (answer: Answer, senders': seq<Sender>)
    requires ring.Valid() && Matches(senders, ring.queue, ring.head)
    modifies ring, ring.rbf
    ensures ring.Valid() && Matches(senders', ring.queue, ring.head)
    ensures ring.View() == Next(old(ring.View()), ring.rbf.Length, Receive)
    ensures answer == Reply(old(ring.View()), ring.rbf.Length, Receive)
  {
    answer, senders' := Nothing, senders;
    ghost var q := ring.queue;
    var msg := ring.Fetch();
    if msg.Some? {
      answer := Fetched(msg.value);
      senders' := senders[1..];
      MatchesFetch(senders, q, old(ring.head));
    }
  }
}
