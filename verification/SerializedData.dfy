/**
 Framed data: every item is a 4-byte little-endian length followed by that many bytes, a multiple of four.  The
 buffer grows by doubling in 32-bit arithmetic.  A batch's reply is cut into one slice per job by item counts.
 */
module SerializedData {
  import opened Common

  type Byte = b: int | 0 <= b < 256 witness 0
  type Bytes = seq<Byte>

  const ALIGNMENT: nat := 4
  const DEFAULT_CAPACITY: nat := 128
  const TWO_31: nat := 0x8000_0000
  const TWO_32: nat := 0x1_0000_0000

  // ------------------------------------------------------------------ lengths as bytes

  function Quad(a: int, b: int, c: int, d: int): int {
    a + b * 0x100 + c * 0x1_0000 + d * 0x100_0000
  }

  lemma QuadDigits(a: Byte, b: Byte, c: Byte, d: Byte)
    ensures var n := Quad(a, b, c, d);
      && 0 <= n < TWO_32 && n % 0x100 == a && n / 0x100 % 0x100 == b && n / 0x1_0000 % 0x100 == c && n / 0x100_0000 == d
  {
    var n := Quad(a, b, c, d);
    assert n / 0x100 == b + c * 0x100 + d * 0x1_0000;
    assert n / 0x1_0000 == c + d * 0x100;
  }

  lemma DigitsQuad(n: nat)
    requires n < TWO_32
    ensures Quad(n % 0x100, n / 0x100 % 0x100, n / 0x1_0000 % 0x100, n / 0x100_0000) == n
  {
    var p := n / 0x100;
    var q := p / 0x100;
    assert n / 0x1_0000 == q && n / 0x100_0000 == q / 0x100;
    assert n == p * 0x100 + n % 0x100 && p == q * 0x100 + p % 0x100 && q == q / 0x100 * 0x100 + q % 0x100;
  }

  /** The lowest k bytes of a number, lowest first. */
  function Digits(n: nat, k: nat): (b: Bytes)
    ensures |b| == k
  {
    if k == 0 then [] else [n % 0x100] + Digits(n / 0x100, k - 1)
  }

  function LittleEndian(n: nat): (b: Bytes)
    ensures |b| == ALIGNMENT
  {
    Digits(n, ALIGNMENT)
  }

  lemma FourDigits(n: nat)
    requires n < TWO_32
    ensures LittleEndian(n) == [n % 0x100, n / 0x100 % 0x100, n / 0x1_0000 % 0x100, n / 0x100_0000]
  {
    var p := n / 0x100;
    var q := p / 0x100;
    var r := q / 0x100;
    assert n / 0x1_0000 == q && n / 0x100_0000 == r && r % 0x100 == r;
    assert Digits(r, 1) == [r % 0x100] + Digits(r / 0x100, 0);
    assert Digits(q, 2) == [q % 0x100] + Digits(r, 1);
    assert Digits(p, 3) == [p % 0x100] + Digits(q, 2);
    assert Digits(n, 4) == [n % 0x100] + Digits(p, 3);
  }

  function BigEndian(n: nat): (b: Bytes)
    requires n < TWO_32
    ensures |b| == 4
  {
    [n / 0x100_0000, n / 0x1_0000 % 0x100, n / 0x100 % 0x100, n % 0x100]
  }

  /** The length field at a position. */
  function ReadLength(data: Bytes, p: nat): (n: nat)
    requires p + ALIGNMENT <= |data|
    ensures n < TWO_32
  {
    Quad(data[p], data[p + 1], data[p + 2], data[p + 3])
  }

  lemma LengthRoundTrip(n: nat)
    requires n < TWO_32
    ensures ReadLength(LittleEndian(n), 0) == n
  {
    DigitsQuad(n);
    FourDigits(n);
  }

  /** ConvertBetweenBigAndLittleEndian on four bytes. */
  function Convert(n: nat): (m: nat)
    requires n < TWO_32
    ensures m < TWO_32
  {
    Quad(n / 0x100_0000, n / 0x1_0000 % 0x100, n / 0x100 % 0x100, n % 0x100)
  }

  /** Whatever the machine's byte order, the bytes written are the little-endian ones, and are read back. */
  lemma SameBytesEverywhere(n: nat)
    requires n < TWO_32
    ensures BigEndian(Convert(n)) == LittleEndian(n) && Convert(Convert(n)) == n
  {
    var a, b, c, d := n % 0x100, n / 0x100 % 0x100, n / 0x1_0000 % 0x100, n / 0x100_0000;
    QuadDigits(d, c, b, a);
    DigitsQuad(n);
    FourDigits(n);
  }

  // ------------------------------------------------------------------ frames

  function Padded(size: nat): nat {
    (size + 3) / 4 * 4
  }

  function Frame(payload: Bytes): (f: Bytes)
    requires |payload| < TWO_32
    ensures |f| == ALIGNMENT + |payload|
  {
    LittleEndian(|payload|) + payload
  }

  predicate Framable(items: seq<Bytes>) {
    forall i :: 0 <= i < |items| ==> |items[i]| < TWO_32 && |items[i]| % ALIGNMENT == 0
  }

  function Encode(items: seq<Bytes>): Bytes
    requires Framable(items)
  {
    if items == [] then [] else Frame(items[0]) + Encode(items[1..])
  }

  lemma {:induction false} EncodeConcat(a: seq<Bytes>, b: seq<Bytes>)
    requires Framable(a) && Framable(b)
    ensures Framable(a + b) && Encode(a + b) == Encode(a) + Encode(b)
  {
    if a == [] {
      assert a + b == b;
    } else {
      EncodeConcat(a[1..], b);
      assert (a + b)[1..] == a[1..] + b;
    }
  }

  lemma {:induction false} EncodeAligned(items: seq<Bytes>)
    requires Framable(items)
    ensures |Encode(items)| % ALIGNMENT == 0
  {
    if items != [] {
      EncodeAligned(items[1..]);
      assert |Encode(items)| == ALIGNMENT + |items[0]| + |Encode(items[1..])|;
      SumAligned(|items[0]|, |Encode(items[1..])|);
    }
  }

  lemma SumAligned(x: nat, y: nat)
    requires x % ALIGNMENT == 0 && y % ALIGNMENT == 0
    ensures (ALIGNMENT + x + y) % ALIGNMENT == 0
  {
  }

  /** The length of the next count items from start, or None when they do not fit. */
  function ItemsSize(data: Bytes, start: nat, count: nat): (r: Option<nat>)
    ensures r.Some? && count > 0 ==> start + r.value <= |data|
    ensures r.Some? && count == 0 ==> r.value == 0
    decreases count
  {
    if count == 0 then Some(0)
    else if start + ALIGNMENT > |data| then None
    else
      var n := ReadLength(data, start);
      if n % ALIGNMENT != 0 || start + ALIGNMENT + n > |data| then None
      else
        var rest := ItemsSize(data, start + ALIGNMENT + n, count - 1);
        if rest.None? then None else Some(ALIGNMENT + n + rest.value)
  }

  const CORRUPT: nat := 0xFFFF_FFFF

  /** What is read as the length at a position: beyond the data, whatever is in memory there. */
  function LengthAt(data: Bytes, p: nat, beyond: nat -> nat): nat {
    if p + ALIGNMENT <= |data| then ReadLength(data, p) else beyond(p)
  }

  function Longer(k: nat, r: Option<nat>): Option<nat> {
    if r.None? then None else Some(k + r.value)
  }

  /** What one turn of the loop moves on by, unless the length is unaligned or reaches beyond the data. */
  function ItemAt(data: Bytes, p: nat, beyond: nat -> nat): Option<nat> {
    var n := LengthAt(data, p, beyond);
    if n % ALIGNMENT != 0 || p + ALIGNMENT + n > |data| then None else Some(ALIGNMENT + n)
  }

  /** A length read beyond the data never changes the answer. */
  lemma OneItem(data: Bytes, p: nat, left: nat, beyond: nat -> nat)
    requires left > 0
    ensures var item := ItemAt(data, p, beyond);
      ItemsSize(data, p, left) ==
        if item.None? then None else Longer(item.value, ItemsSize(data, p + item.value, left - 1))
  {
  }

  function SizeBy(item: nat -> Option<nat>, start: nat, count: nat): Option<nat>
    decreases count
  {
    if count == 0 then Some(0)
    else if item(start).None? then None
    else Longer(item(start).value, SizeBy(item, start + item(start).value, count - 1))
  }

  lemma {:induction false} SizeByItems(data: Bytes, beyond: nat -> nat, item: nat -> Option<nat>, start: nat, count: nat)
    requires forall p: nat :: item(p) == ItemAt(data, p, beyond)
    ensures SizeBy(item, start, count) == ItemsSize(data, start, count)
    decreases count
  {
    if count > 0 {
      OneItem(data, start, count, beyond);
      if item(start).Some? { SizeByItems(data, beyond, item, start + item(start).value, count - 1); }
    }
  }

  /** The loop over the items, with -1 for corrupt data. */
  method SumLengths(item: nat -> Option<nat>, start: nat, itemCount: nat) returns (size: nat)
    ensures size == if SizeBy(item, start, itemCount).None? then CORRUPT else SizeBy(item, start, itemCount).value
  {
    ghost var answer := SizeBy(item, start, itemCount);
    var p: nat, left: nat := start, itemCount;
    while left > 0
      invariant start <= p && answer == Longer(p - start, SizeBy(item, p, left))
    {
      var step := item(p);
      if step.None? {
        return CORRUPT;
      }
      p, left := p + step.value, left - 1;
    }
    size := p - start;
  }

  /** The result as the code returns it. */
  function SizeOrCorrupt(start: nat, r: Option<nat>): nat {
    if start % ALIGNMENT != 0 || r.None? then CORRUPT else r.value
  }

  /** The size of the next items, or that the data is corrupt. */
  method NextSeveralItemSize(data: Bytes, start: nat, itemCount: nat, beyond: nat -> nat) returns (size: nat)
    requires |data| % ALIGNMENT == 0 && |data| < TWO_32 - 1
    ensures size == SizeOrCorrupt(start, ItemsSize(data, start, itemCount))
    ensures size != CORRUPT ==> ItemsSize(data, start, itemCount) == Some(size)
  {
    if start % ALIGNMENT != 0 {
      return CORRUPT;
    }
    var item := (p: nat) => ItemAt(data, p, beyond);
    SizeByItems(data, beyond, item, start, itemCount);
    size := SumLengths(item, start, itemCount);
  }

  /** The bytes from p on begin with these items. */
  predicate EncodedAt(data: Bytes, p: nat, items: seq<Bytes>)
    requires Framable(items)
  {
    p + |Encode(items)| <= |data| && data[p..p + |Encode(items)|] == Encode(items)
  }

  lemma SliceSplit(data: Bytes, p: nat, head: Bytes, tail: Bytes)
    requires p + |head| + |tail| <= |data| && data[p..p + |head| + |tail|] == head + tail
    ensures data[p..p + |head|] == head && data[p + |head|..p + |head| + |tail|] == tail
  {
    var all := data[p..p + |head| + |tail|];
    assert data[p..p + |head|] == all[..|head|] == head;
    assert data[p + |head|..p + |head| + |tail|] == all[|head|..] == tail;
  }

  lemma ReadAt(data: Bytes, p: nat, field: Bytes)
    requires |field| == ALIGNMENT && p + ALIGNMENT <= |data| && data[p..p + ALIGNMENT] == field
    ensures ReadLength(data, p) == ReadLength(field, 0)
  {
    assert field[0] == data[p] && field[1] == data[p + 1] && field[2] == data[p + 2] && field[3] == data[p + 3];
  }

  lemma FrameAt(data: Bytes, p: nat, payload: Bytes)
    requires |payload| < TWO_32 && p + |Frame(payload)| <= |data| && data[p..p + |Frame(payload)|] == Frame(payload)
    ensures ReadLength(data, p) == |payload|
  {
    var field := LittleEndian(|payload|);
    SliceSplit(data, p, field, payload);
    ReadAt(data, p, field);
    LengthRoundTrip(|payload|);
  }

  lemma HeadAt(data: Bytes, p: nat, items: seq<Bytes>)
    requires Framable(items) && items != [] && EncodedAt(data, p, items)
    ensures ReadLength(data, p) == |items[0]| && EncodedAt(data, p + ALIGNMENT + |items[0]|, items[1..])
  {
    SliceSplit(data, p, Frame(items[0]), Encode(items[1..]));
    FrameAt(data, p, items[0]);
  }

  /** Length fields with these values follow one another from p on. */
  predicate LengthsAt(data: Bytes, p: nat, lengths: seq<nat>)
    decreases |lengths|
  {
    lengths == [] ||
    (p + ALIGNMENT + lengths[0] <= |data| && lengths[0] % ALIGNMENT == 0 && ReadLength(data, p) == lengths[0]
     && LengthsAt(data, p + ALIGNMENT + lengths[0], lengths[1..]))
  }

  function TotalLength(lengths: seq<nat>): nat {
    if lengths == [] then 0 else ALIGNMENT + lengths[0] + TotalLength(lengths[1..])
  }

  function Lengths(items: seq<Bytes>): (r: seq<nat>)
    ensures |r| == |items|
  {
    if items == [] then [] else [|items[0]|] + Lengths(items[1..])
  }

  lemma {:induction false} EncodedLengths(data: Bytes, p: nat, items: seq<Bytes>)
    requires Framable(items) && EncodedAt(data, p, items)
    ensures LengthsAt(data, p, Lengths(items)) && TotalLength(Lengths(items)) == |Encode(items)|
    decreases |items|
  {
    if items != [] {
      HeadAt(data, p, items);
      EncodedLengths(data, p + ALIGNMENT + |items[0]|, items[1..]);
      assert Lengths(items)[1..] == Lengths(items[1..]);
    }
  }

  lemma {:induction false} ItemsSizeOfLengths(data: Bytes, p: nat, lengths: seq<nat>)
    requires LengthsAt(data, p, lengths)
    ensures ItemsSize(data, p, |lengths|) == Some(TotalLength(lengths))
    decreases |lengths|
  {
    if lengths != [] { ItemsSizeOfLengths(data, p + ALIGNMENT + lengths[0], lengths[1..]); }
  }

  /** Over well-formed frames the size is that of the items themselves, wherever they stand in the data. */
  lemma ItemsSizeOfFrames(data: Bytes, p: nat, items: seq<Bytes>)
    requires Framable(items) && EncodedAt(data, p, items)
    ensures ItemsSize(data, p, |items|) == Some(|Encode(items)|)
  {
    EncodedLengths(data, p, items);
    ItemsSizeOfLengths(data, p, Lengths(items));
  }

  // ------------------------------------------------------------------ growing the buffer

  /** The candidate capacity after k more doublings in 32-bit arithmetic. */
  function Candidate(capacity: nat, k: nat): (c: nat)
    ensures c < TWO_32
  {
    if k == 0 then if capacity == 0 then DEFAULT_CAPACITY else capacity * 2 % TWO_32
    else Candidate(capacity, k - 1) * 2 % TWO_32
  }

  /** The doubling loop ends: one of the first candidates is large enough. */
  predicate Reaches(capacity: nat, size: nat) {
    exists k :: 0 <= k <= 32 && Candidate(capacity, k) >= size
  }

  lemma DoubleDivides(x: nat, p: nat, q: nat)
    requires x < TWO_32 && p > 0 && x % p == 0 && TWO_32 == q * (2 * p)
    ensures x * 2 % TWO_32 % (2 * p) == 0
  {
    var n := x / p;
    assert x == n * p;
    if x * 2 < TWO_32 {
      assert x * 2 == n * (2 * p);
      MultipleDivides(n, 2 * p);
    } else {
      assert x * 2 % TWO_32 == x * 2 - TWO_32;
      assert x * 2 - TWO_32 == (n - q) * (2 * p);
      MultipleDivides(n - q, 2 * p);
    }
  }

  lemma MultipleDivides(n: int, p: nat)
    requires p > 0
    ensures n * p % p == 0
  {
    DivModExact(n, p, n * p);
  }

  lemma DivModExact(n: int, p: nat, x: int)
    requires p > 0 && x == n * p
    ensures x % p == 0
  {
    var q, r := x / p, x % p;
    assert x == q * p + r && 0 <= r < p;
    assert (n - q) * p == r;
    if n != q { AtLeastOne(n - q, p); }
  }

  lemma AtLeastOne(n: int, p: int)
    requires n != 0 && p > 0
    ensures n * p >= p || n * p <= -p
  {
  }

  lemma {:induction false} Pow2Splits(j: nat, k: nat)
    requires j <= k
    ensures Pow2(k) == Pow2(k - j) * Pow2(j)
    decreases j
  {
    if j > 0 {
      Pow2Splits(j - 1, k);
      assert Pow2(k - j + 1) == 2 * Pow2(k - j) && Pow2(j) == 2 * Pow2(j - 1);
    }
  }

  lemma Pow2Facts()
    ensures Pow2(7) == DEFAULT_CAPACITY && Pow2(31) == TWO_31 && Pow2(32) == TWO_32
  {
    assert Pow2(8) == 0x100 && Pow2(16) == 0x1_0000 && Pow2(24) == 0x100_0000;
  }

  /** Every doubling shifts the candidate by one bit, so after 32 of them nothing is left. */
  lemma {:induction false} ShiftedOut(capacity: nat, k: nat)
    requires k <= 32
    ensures Candidate(capacity, k) % Pow2(k) == 0
  {
    if k > 0 {
      ShiftedOut(capacity, k - 1);
      Pow2Facts();
      Pow2Splits(k, 32);
      DoubleDivides(Candidate(capacity, k - 1), Pow2(k - 1), Pow2(32 - k));
    }
  }

  lemma {:induction false} ZeroStays(capacity: nat, k: nat)
    requires k >= 32
    ensures Candidate(capacity, k) == 0
  {
    if k == 32 {
      ShiftedOut(capacity, 32);
      Pow2Facts();
    } else {
      ZeroStays(capacity, k - 1);
    }
  }

  /** Otherwise it never ends: no number of doublings makes the candidate large enough. */
  lemma NeverEnough(capacity: nat, size: nat, k: nat)
    requires !Reaches(capacity, size)
    ensures Candidate(capacity, k) < size
  {
    if k > 32 {
      ZeroStays(capacity, k);
      assert Candidate(capacity, 32) < size;
    }
  }

  /** The doubling loop. */
  method NewCapacity(capacity: nat, size: nat) returns (c: nat, ghost k: nat)
    requires Reaches(capacity, size)
    ensures c == Candidate(capacity, k) && size <= c < TWO_32 && forall j :: 0 <= j < k ==> Candidate(capacity, j) < size
  {
    ghost var end :| 0 <= end <= 32 && Candidate(capacity, end) >= size;
    k := 0;
    c := if capacity == 0 then DEFAULT_CAPACITY else capacity * 2 % TWO_32;
    while c < size
      invariant c == Candidate(capacity, k) && k <= end && forall j :: 0 <= j < k ==> Candidate(capacity, j) < size
      decreases end - k
    {
      c, k := c * 2 % TWO_32, k + 1;
    }
  }

  /** The capacities of a buffer that started without memory: none yet, or the default doubled some times. */
  predicate Grown(capacity: nat) {
    capacity == 0 || exists k :: 7 <= k <= 31 && capacity == Pow2(k)
  }

  lemma {:induction false} Pow2Grows(j: nat, k: nat)
    requires j <= k
    ensures Pow2(j) <= Pow2(k)
    decreases k
  {
    if j < k { Pow2Grows(j, k - 1); }
  }

  lemma NoWrap(e: nat)
    requires e < 31
    ensures Pow2(e) * 2 % TWO_32 == Pow2(e + 1) <= TWO_31
  {
    Pow2Facts();
    Pow2Grows(e + 1, 31);
  }

  lemma DoublingStays(c: nat)
    requires Grown(c)
    ensures c <= TWO_31 && Grown(c * 2 % TWO_32)
  {
    if c != 0 {
      var j :| 7 <= j <= 31 && c == Pow2(j);
      Pow2Facts();
      if j < 31 { NoWrap(j); }
    }
  }

  lemma {:induction false} GrownStays(capacity: nat, k: nat)
    requires Grown(capacity)
    ensures Grown(Candidate(capacity, k)) && Candidate(capacity, k) <= TWO_31
  {
    Pow2Facts();
    if k == 0 {
      DoublingStays(capacity);
    } else {
      GrownStays(capacity, k - 1);
      DoublingStays(Candidate(capacity, k - 1));
    }
    DoublingStays(Candidate(capacity, k));
  }

  /** The k-th candidate, as long as nothing wraps; the first one is 2^e. */
  lemma {:induction false} GrownCandidate(capacity: nat, e: nat, k: nat)
    requires e + k <= 31 && Candidate(capacity, 0) == Pow2(e)
    ensures Candidate(capacity, k) == Pow2(e + k)
  {
    if k > 0 {
      GrownCandidate(capacity, e, k - 1);
      NoWrap(e + k - 1);
    }
  }

  /** Such a buffer grows to any size up to 2^31, and for any larger one the loop never ends. */
  lemma GrownReachesIff(capacity: nat, size: nat)
    requires Grown(capacity) && capacity < size
    ensures Reaches(capacity, size) <==> size <= TWO_31
  {
    Pow2Facts();
    if size <= TWO_31 {
      var e: nat := 7;
      if capacity != 0 {
        var j :| 7 <= j <= 31 && capacity == Pow2(j);
        e := j + 1;
        NoWrap(j);
      }
      GrownCandidate(capacity, e, 31 - e);
      assert Candidate(capacity, 31 - e) >= size;
    } else {
      forall k | 0 <= k <= 32 ensures Candidate(capacity, k) < size { GrownStays(capacity, k); }
    }
  }

  // ------------------------------------------------------------------ the buffer

  /** A segment's contents: what the caller copies in, and padding up to the alignment. */
  predicate Pads(segment: Bytes, content: Bytes) {
    |segment| == Padded(|content|) && segment[..|content|] == content
  }

  /** How a request for room ends: there is room, there is none, the doubling never ends, or the 32-bit sum wraps and
      the caller writes beyond the buffer. */
  datatype Verdict = Fits | Refused | Hangs | Overruns

  /** The verdict on a buffer of this capacity that is to hold so many bytes. */
  function Ask(capacity: nat, canGrow: bool, bytes: nat): (v: Verdict)
    ensures v.Fits? ==> bytes < TWO_32
    ensures v.Overruns? ==> bytes >= TWO_32
    ensures bytes <= capacity < TWO_32 ==> v == Fits
  {
    var asked := bytes % TWO_32;
    if asked > capacity && !canGrow then Refused
    else if asked > capacity && !Reaches(capacity, asked) then Hangs
    else if bytes < TWO_32 then Fits
    else Overruns
  }

  /** A buffer that started without memory gets every size below 2^31 and hangs from there up to where the sum wraps. */
  lemma AskGrown(capacity: nat, bytes: nat)
    requires Grown(capacity)
    ensures Ask(capacity, true, bytes) ==
            if bytes <= TWO_31 then Fits
            else if TWO_31 < bytes % TWO_32 then Hangs
            else Overruns
  {
    Pow2Facts();
    DoublingStays(capacity);
    if bytes % TWO_32 > capacity { GrownReachesIff(capacity, bytes % TWO_32); }
  }

  lemma FrameLength(segment: Bytes)
    requires |segment| % ALIGNMENT == 0
    ensures |segment| < TWO_32 ==> |Frame(segment)| == ALIGNMENT + |segment| && |Frame(segment)| % ALIGNMENT == 0
  {
  }

  class Buffer {
    var data: Bytes
    var capacity: nat
    const canGrow: bool

    predicate Valid()
      reads this
    {
      |data| <= capacity < TWO_32 && |data| % ALIGNMENT == 0
    }

    /** An empty buffer that grows. */
    constructor ()
      ensures Valid() && data == [] && canGrow && capacity == 0
    {
      data, capacity, canGrow := [], 0, true;
    }

    /** A buffer over memory the caller hands in, with the bytes that are valid in it; with a memory manager it grows. */
    constructor Over(valid: Bytes, capacity: nat, hasManager: bool)
      requires |valid| <= capacity < TWO_32 && |valid| % ALIGNMENT == 0 && capacity % ALIGNMENT == 0
      ensures Valid() && data == valid && this.capacity == capacity && canGrow == hasManager
    {
      this.data, this.capacity, this.canGrow := valid, capacity, hasManager;
    }

    /** Room for so many bytes in all, of which the code sees the 32-bit sum. */
    method Enlarge(bytes: nat) returns (v: Verdict)
      requires Valid()
      modifies this`capacity
      ensures Valid() && v == Ask(old(capacity), canGrow, bytes)
      ensures v.Fits? ==> bytes <= capacity
      ensures v.Overruns? ==> capacity < bytes
      ensures v.Refused? || v.Hangs? ==> capacity == old(capacity)
      ensures old(Grown(capacity)) ==> Grown(capacity)
    {
      var size := bytes % TWO_32;
      if size > capacity {
        if !canGrow {
          return Refused;
        }
        if !Reaches(capacity, size) {
          return Hangs;
        }
        ghost var k;
        ghost var before := capacity;
        capacity, k := NewCapacity(capacity, size);
        if Grown(before) { GrownStays(before, k); }
      }
      v := if bytes < TWO_32 then Fits else Overruns;
    }

    /** Adds one frame, with the length rounded up to the alignment. */
    method ApplyForSegment(segment: Bytes, content: Bytes) returns (v: Verdict)
      requires Valid() && Pads(segment, content) && |content| < TWO_32
      modifies this
      ensures Valid() && v == Ask(old(capacity), canGrow, |old(data)| + ALIGNMENT + |segment|)
      ensures data == if v.Fits? then old(data) + Frame(segment) else old(data)
      ensures v.Overruns? ==> capacity < |old(data)| + ALIGNMENT + |segment|
    {
      FrameLength(segment);
      v := Enlarge(|data| + ALIGNMENT + |segment|);
      if v.Fits? {
        data := data + Frame(segment);
      }
    }

    /** Adds all the frames of another buffer. */
    method Append(src: Bytes) returns (v: Verdict)
      requires Valid() && |src| % ALIGNMENT == 0 && |src| < TWO_32
      modifies this
      ensures Valid() && v == Ask(old(capacity), canGrow, |old(data)| + |src|)
      ensures data == if v.Fits? then old(data) + src else old(data)
      ensures v.Overruns? ==> capacity < |old(data)| + |src|
    {
      v := Enlarge(|data| + |src|);
      if v.Fits? {
        data := data + src;
      }
    }
  }

  /** Sets a buffer up, over the caller's memory or without any; memory or contents that are not aligned are refused. */
  method Init(given: Option<Bytes>, capacity: nat, hasManager: bool) returns (b: Buffer?)
    requires given.Some? ==> |given.value| <= capacity < TWO_32
    ensures b == null <==> given.Some? && (capacity % ALIGNMENT != 0 || |given.value| % ALIGNMENT != 0)
    ensures b != null ==> fresh(b) && b.Valid()
    ensures b != null && given.None? ==> b.data == [] && b.capacity == 0 && b.canGrow
    ensures b != null && given.Some? ==> b.data == given.value && b.capacity == capacity && b.canGrow == hasManager
  {
    if given.None? {
      b := new Buffer();
    } else if capacity % ALIGNMENT != 0 || |given.value| % ALIGNMENT != 0 {
      b := null;
    } else {
      b := new Buffer.Over(given.value, capacity, hasManager);
    }
  }

  /** A buffer that holds the frames of some items holds, after one more segment, those of one more item. */
  lemma SegmentIsItem(items: seq<Bytes>, segment: Bytes)
    requires Framable(items) && |segment| < TWO_32 && |segment| % ALIGNMENT == 0
    ensures Framable(items + [segment]) && Encode(items + [segment]) == Encode(items) + Frame(segment)
  {
    EncodeConcat(items, [segment]);
    assert Encode([segment]) == Frame(segment) + Encode([segment][1..]);
  }
}
