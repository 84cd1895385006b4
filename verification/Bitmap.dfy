/** The bitmap of the standard library: bytes changed in place, bits numbered from the low end. */
module Bitmap {
  import opened Options

  /** b << k and b >> k on a byte. */
  function Shl(b: bv8, k: nat): bv8
    requires k < 8
  {
    match k
    case 0 => b
    case 1 => b << 1
    case 2 => b << 2
    case 3 => b << 3
    case 4 => b << 4
    case 5 => b << 5
    case 6 => b << 6
    case _ => b << 7
  }

  function Shr(b: bv8, k: nat): bv8
    requires k < 8
  {
    match k
    case 0 => b
    case 1 => b >> 1
    case 2 => b >> 2
    case 3 => b >> 3
    case 4 => b >> 4
    case 5 => b >> 5
    case 6 => b >> 6
    case _ => b >> 7
  }

  /** Bit k of a byte. */
  predicate Has(b: bv8, k: nat)
    requires k < 8
  {
    Shr(b, k) & 1 == 1
  }

  function Fill(value: bool): bv8 { if value then 0xFF else 0 }

  /** b with bit k set to value. */
  function With(b: bv8, k: nat, value: bool): bv8
    requires k < 8
  {
    if value then b | Shl(1, k) else b & !Shl(1, k)
  }

  lemma WithHas(b: bv8, k: nat, value: bool, i: nat)
    requires k < 8 && i < 8
    ensures Has(With(b, k, value), i) == if i == k then value else Has(b, i)
  {
    if value { SetHas(b, k, i); } else { ClearedHas(b, k, i); }
  }

  lemma SetHas(b: bv8, k: nat, i: nat)
    requires k < 8 && i < 8
    ensures Has(b | Shl(1, k), i) <==> i == k || Has(b, i)
  {
  }

  lemma ClearedHas(b: bv8, k: nat, i: nat)
    requires k < 8 && i < 8
    ensures Has(b & !Shl(1, k), i) <==> i != k && Has(b, i)
  {
  }

  /** What setBits writes to its first byte: the bits from k on. */
  function High(b: bv8, k: nat, value: bool): bv8
    requires k < 8
  {
    (b & !Shl(0xFF, k)) | Shl(Fill(value), k)
  }

  /** What setBits writes to its last byte: all but the k highest bits. */
  function Low(b: bv8, k: nat, value: bool): bv8
    requires k < 8
  {
    (b & !Shr(0xFF, k)) | Shr(Fill(value), k)
  }

  lemma HighHas(b: bv8, k: nat, value: bool, i: nat)
    requires k < 8 && i < 8
    ensures Has(High(b, k, value), i) == if i >= k then value else Has(b, i)
  {
  }

  lemma LowHas(b: bv8, k: nat, value: bool, i: nat)
    requires k < 8 && i < 8
    ensures Has(Low(b, k, value), i) == if i < 8 - k then value else Has(b, i)
  {
  }

  lemma FillHas(value: bool, i: nat)
    requires i < 8
    ensures Has(Fill(value), i) == value
  {
  }

  /** A byte is determined by its bits. */
  lemma SameBits(a: bv8, b: bv8)
    requires forall i | 0 <= i < 8 :: Has(a, i) == Has(b, i)
    ensures a == b
  {
    assert Has(a, 0) == Has(b, 0) && Has(a, 1) == Has(b, 1) && Has(a, 2) == Has(b, 2) && Has(a, 3) == Has(b, 3);
    assert Has(a, 4) == Has(b, 4) && Has(a, 5) == Has(b, 5) && Has(a, 6) == Has(b, 6) && Has(a, 7) == Has(b, 7);
  }

  // ---------- sequences of bytes ----------

  /** Bit x of the bitmap. */
  predicate At(bytes: seq<bv8>, x: nat)
    requires x < 8 * |bytes|
  {
    Has(bytes[x / 8], x % 8)
  }

  /** set on bytes. */
  function SetOne(bytes: seq<bv8>, x: nat, value: bool): seq<bv8>
    requires x < 8 * |bytes|
  {
    bytes[x / 8 := With(bytes[x / 8], x % 8, value)]
  }

  /** set on each index of a range. */
  function SetEach(bytes: seq<bv8>, first: nat, size: nat, value: bool): (r: seq<bv8>)
    requires first + size <= 8 * |bytes|
    ensures |r| == |bytes|
  {
    if size == 0 then bytes else SetOne(SetEach(bytes, first, size - 1, value), first + size - 1, value)
  }

  lemma SetOneAt(bytes: seq<bv8>, x: nat, value: bool, y: nat)
    requires x < 8 * |bytes| && y < 8 * |bytes|
    ensures At(SetOne(bytes, x, value), y) == if y == x then value else At(bytes, y)
  {
    WithHas(bytes[x / 8], x % 8, value, y % 8);
  }

  /** Setting each index of a range gives these bits the value and changes no other bit. */
  lemma {:induction false} SetEachAt(bytes: seq<bv8>, first: nat, size: nat, value: bool, y: nat)
    requires first + size <= 8 * |bytes| && y < 8 * |bytes|
    ensures At(SetEach(bytes, first, size, value), y) == if first <= y < first + size then value else At(bytes, y)
  {
    if size > 0 {
      SetEachAt(bytes, first, size - 1, value, y);
      SetOneAt(SetEach(bytes, first, size - 1, value), first + size - 1, value, y);
    }
  }

  /** Bitmaps with the same bits are the same. */
  lemma SameBitmaps(a: seq<bv8>, b: seq<bv8>)
    requires |a| == |b| && forall x: nat | x < 8 * |a| :: At(a, x) == At(b, x)
    ensures a == b
  {
    forall q | 0 <= q < |a| ensures a[q] == b[q] {
      forall i | 0 <= i < 8 ensures Has(a[q], i) == Has(b[q], i) { assert At(a, 8 * q + i) == At(b, 8 * q + i); }
      SameBits(a[q], b[q]);
    }
  }

  /** The byte that setBits leaves at index q, with first and last byte and the two offsets. */
  function Filled(b: bv8, q: nat, firstByte: nat, lastByte: nat, begin: nat, end: nat, value: bool): bv8
    requires begin < 8 && end < 8
  {
    if q < firstByte || q > lastByte then b
    else if firstByte == lastByte then Low(High(b, begin, value), end, value)
    else if q == firstByte then High(b, begin, value)
    else if q == lastByte then Low(b, end, value)
    else Fill(value)
  }

  /** Bit i of byte q lies between bit `begin` of the first byte and the `end` highest bits of the last. */
  predicate Inside(q: nat, i: nat, firstByte: nat, lastByte: nat, begin: nat, end: nat) {
    firstByte <= q <= lastByte && (q == firstByte ==> i >= begin) && (q == lastByte ==> i + end < 8)
  }

  lemma FilledHas(b: bv8, q: nat, i: nat, firstByte: nat, lastByte: nat, begin: nat, end: nat, value: bool)
    requires i < 8 && begin < 8 && end < 8 && (firstByte == lastByte ==> begin == 0 && end == 0)
    ensures Has(Filled(b, q, firstByte, lastByte, begin, end, value), i)
      == if Inside(q, i, firstByte, lastByte, begin, end) then value else Has(b, i)
  {
    HighHas(b, begin, value, i);
    LowHas(b, end, value, i);
    LowHas(High(b, begin, value), end, value, i);
    FillHas(value, i);
  }

  /** Last byte of a range and the bits of it that lie beyond the range. */
  function LastByte(last: nat): int { if last % 8 == 0 then last / 8 - 1 else last / 8 }

  function Beyond(last: nat): nat { if last % 8 == 0 then 0 else 8 - last % 8 }

  lemma InsideIsRange(x: nat, first: nat, size: nat)
    requires size >= 8
    ensures var last := first + size;
      && first / 8 <= LastByte(last) && (first / 8 == LastByte(last) ==> first % 8 == 0 && Beyond(last) == 0)
      && (Inside(x / 8, x % 8, first / 8, LastByte(last), first % 8, Beyond(last)) <==> first <= x < last)
  {
  }

  // ---------- searching ----------

  /** The returned position that means nothing was found; it is also a position. */
  const NPOS: nat := 0

  function PositionOf(r: Option<nat>): nat { if r.Some? then r.value else NPOS }

  /** Lowest clear bit of a byte from k on, or 8. */
  function FirstClear(b: bv8, k: nat): (r: nat)
    requires k <= 8
    ensures k <= r <= 8 && (r < 8 ==> !Has(b, r)) && forall i | k <= i < r :: Has(b, i)
    decreases 8 - k
  {
    if k == 8 || !Has(b, k) then k else FirstClear(b, k + 1)
  }

  lemma FullByte(b: bv8)
    ensures b == 0xFF <==> FirstClear(b, 0) == 8
  {
    if FirstClear(b, 0) == 8 {
      forall i | 0 <= i < 8 ensures Has(b, i) == Has(0xFF, i) { FillHas(true, i); }
      SameBits(b, 0xFF);
    } else {
      FillHas(true, FirstClear(b, 0));
    }
  }

  /** n bits from x on are clear. */
  predicate Clear(bytes: seq<bv8>, x: nat, n: nat)
    requires x + n <= 8 * |bytes|
  {
    forall y: nat | x <= y < x + n :: !At(bytes, y)
  }

  /** The first clear bit from byte i on. */
  function FirstFalse(bytes: seq<bv8>, size: nat, i: nat): Option<nat>
    requires i <= size <= |bytes|
    decreases size - i
  {
    if i == size then None
    else if FirstClear(bytes[i], 0) < 8 then Some(8 * i + FirstClear(bytes[i], 0))
    else FirstFalse(bytes, size, i + 1)
  }

  /** What find_false finds is the lowest clear bit of the bitmap; it finds none exactly if all bits are set. */
  lemma {:induction false} FirstFalseExact(bytes: seq<bv8>, size: nat, i: nat)
    requires i <= size <= |bytes|
    ensures match FirstFalse(bytes, size, i)
      case None => forall y: nat | 8 * i <= y < 8 * size :: At(bytes, y)
      case Some(x) => 8 * i <= x < 8 * size && !At(bytes, x) && forall y: nat | 8 * i <= y < x :: At(bytes, y)
    decreases size - i
  {
    if i < size {
      var k := FirstClear(bytes[i], 0);
      forall y: nat | 8 * i <= y < 8 * i + k ensures At(bytes, y) { assert y / 8 == i && y % 8 < k; }
      if k < 8 {
        assert (8 * i + k) / 8 == i && (8 * i + k) % 8 == k;
      } else {
        FirstFalseExact(bytes, size, i + 1);
      }
    }
  }

  /** The position find_false answers: the lowest clear bit, or 0 if all bits are set. */
  lemma PositionExact(bytes: seq<bv8>, size: nat)
    requires size <= |bytes|
    ensures var x := PositionOf(FirstFalse(bytes, size, 0));
      if forall y: nat | y < 8 * size :: At(bytes, y) then x == 0
      else x < 8 * size && !At(bytes, x) && forall y: nat | y < x :: At(bytes, y)
  {
    FirstFalseExact(bytes, size, 0);
  }

  /** The first clear bit of byte i starts n clear bits. */
  predicate Starts(bytes: seq<bv8>, n: nat, i: nat)
    requires i < |bytes| && 8 * i + n + 7 <= 8 * |bytes|
  {
    FirstClear(bytes[i], 0) < 8 && Clear(bytes, 8 * i + FirstClear(bytes[i], 0), n)
  }

  /** What find_false_bits finds from byte i on: of each byte only the first clear bit is tried. */
  function FirstRun(bytes: seq<bv8>, size: nat, n: nat, i: nat): Option<nat>
    requires i <= size && 8 * size + n <= 8 * |bytes| + 1
    decreases size - i
  {
    if i == size then None
    else if Starts(bytes, n, i) then Some(8 * i + FirstClear(bytes[i], 0))
    else FirstRun(bytes, size, n, i + 1)
  }

  /** What byte i contributes to the two searches. */
  lemma ScanStep(bytes: seq<bv8>, size: nat, n: nat, i: nat, k: nat, x: nat)
    requires i < size <= |bytes| && 8 * size + n <= 8 * |bytes| + 1 && k == FirstClear(bytes[i], 0) && x == 8 * i + k
    ensures FirstRun(bytes, size, n, i) == if Starts(bytes, n, i) then Some(x) else FirstRun(bytes, size, n, i + 1)
    ensures FirstFalse(bytes, size, i) == if k < 8 then Some(x) else FirstFalse(bytes, size, i + 1)
  {
  }

  /** Position x was found from byte i on: it is the first clear bit of its byte, and earlier bytes start no run. */
  ghost predicate FoundAt(bytes: seq<bv8>, size: nat, n: nat, i: nat, x: nat)
    requires 8 * size + n <= 8 * |bytes| + 1
  {
    && i <= x / 8 < size && Clear(bytes, x, n) && Starts(bytes, n, x / 8)
    && x == 8 * (x / 8) + FirstClear(bytes[x / 8], 0) && forall j | i <= j < x / 8 :: !Starts(bytes, n, j)
  }

  lemma FoundHere(bytes: seq<bv8>, size: nat, n: nat, i: nat, k: nat)
    requires i < size && 8 * size + n <= 8 * |bytes| + 1
    requires k == FirstClear(bytes[i], 0) && Starts(bytes, n, i)
    ensures FoundAt(bytes, size, n, i, 8 * i + k)
  {
    assert (8 * i + k) / 8 == i;
  }

  lemma FoundLater(bytes: seq<bv8>, size: nat, n: nat, i: nat, x: nat)
    requires i < size && 8 * size + n <= 8 * |bytes| + 1 && FoundAt(bytes, size, n, i + 1, x) && !Starts(bytes, n, i)
    ensures FoundAt(bytes, size, n, i, x)
  {
    var b := x / 8;
    forall j | i <= j < b ensures !Starts(bytes, n, j) {}
  }

  /** find_false_bits finds n clear bits, at the earliest byte whose first clear bit starts them, and fails only if there is none. */
  lemma {:induction false} FirstRunExact(bytes: seq<bv8>, size: nat, n: nat, i: nat)
    requires i <= size && 8 * size + n <= 8 * |bytes| + 1
    ensures match FirstRun(bytes, size, n, i)
      case None => forall j | i <= j < size :: !Starts(bytes, n, j)
      case Some(x) => FoundAt(bytes, size, n, i, x)
    decreases size - i
  {
    if i < size {
      if Starts(bytes, n, i) {
        FoundHere(bytes, size, n, i, FirstClear(bytes[i], 0));
      } else {
        FirstRunExact(bytes, size, n, i + 1);
        match FirstRun(bytes, size, n, i + 1)
        case None =>
        case Some(x) => FoundLater(bytes, size, n, i, x);
      }
    }
  }

  /**
   When the search succeeds: exactly when the first clear bit of some byte of the bitmap starts n clear
   bits. A run that starts anywhere else is not seen.
   */
  lemma FoundExactly(bytes: seq<bv8>, size: nat, n: nat)
    requires size <= |bytes| && 8 * size + n <= 8 * |bytes| + 1
    ensures FirstRun(bytes, size, n, 0).Some? <==> exists j :: 0 <= j < size && Starts(bytes, n, j)
  {
    FirstRunExact(bytes, size, n, 0);
  }

  /** So it is complete for single bits. */
  lemma OneBitFound(bytes: seq<bv8>, size: nat)
    requires size <= |bytes|
    ensures FirstRun(bytes, size, 1, 0).Some? <==> exists x: nat :: x < 8 * size && !At(bytes, x)
  {
    FoundExactly(bytes, size, 1);
    if j :| 0 <= j < size && Starts(bytes, 1, j) {
      var x := 8 * j + FirstClear(bytes[j], 0);
      assert Clear(bytes, x, 1) && x < 8 * size;
      assert !At(bytes, x);
    }
    if x: nat :| x < 8 * size && !At(bytes, x) { ClearBitStarts(bytes, x); }
  }

  lemma ClearBitStarts(bytes: seq<bv8>, x: nat)
    requires x < 8 * |bytes| && !At(bytes, x)
    ensures Starts(bytes, 1, x / 8)
  {
    var j := x / 8;
    var k := FirstClear(bytes[j], 0);
    assert k <= x % 8;
    forall y: nat | 8 * j + k <= y < 8 * j + k + 1 ensures !At(bytes, y) { assert y / 8 == j && y % 8 == k; }
  }

  /** The position left for the next find_false: the first clear bit, but nothing after a failed search. */
  function Cached(bytes: seq<bv8>, size: nat, n: nat): Option<nat>
    requires 8 * size + n <= 8 * |bytes| + 1 && size <= |bytes|
  {
    if FirstRun(bytes, size, n, 0).Some? then FirstFalse(bytes, size, 0) else None
  }

  /** So a position is left exactly after a search that found n clear bits, and it is the lowest clear bit, whether or not they start there. */
  lemma CachedExact(bytes: seq<bv8>, size: nat, n: nat)
    requires size <= |bytes| && 8 * size + n <= 8 * |bytes| + 1
    ensures match Cached(bytes, size, n)
      case None => forall j | 0 <= j < size :: !Starts(bytes, n, j)
      case Some(x) =>
        && (exists j :: 0 <= j < size && Starts(bytes, n, j))
        && x < 8 * size && !At(bytes, x) && forall y: nat | y < x :: At(bytes, y)
  {
    FoundExactly(bytes, size, n);
    FirstFalseExact(bytes, size, 0);
    if j :| 0 <= j < size && Starts(bytes, n, j) {
      var x := 8 * j + FirstClear(bytes[j], 0);
      assert x / 8 == j && x % 8 == FirstClear(bytes[j], 0);
      assert !At(bytes, x);
    }
  }

  /** It is not complete: two clear bits that are not the first of their byte are missed. */
  lemma MissesARun()
    ensures Clear([0xF2, 0xFF], 2, 2) && FirstRun([0xF2, 0xFF], 1, 2, 0) == None
  {
    var bytes: seq<bv8> := [0xF2, 0xFF];
    assert Has(0xF2, 1) && !Has(0xF2, 0) && !Has(0xF2, 2) && !Has(0xF2, 3);
    assert FirstClear(bytes[0], 0) == 0;
    assert At(bytes, 1);
    forall y: nat | 2 <= y < 4 ensures !At(bytes, y) {}
  }

  class Bitmap {
    const bytes: array<bv8>
    const bitmapSize: nat      // in bytes
    const bitmapCount: nat
    var isFalseBitCached: bool
    var cacheFalseBitPos: nat

    ghost predicate Valid()
      reads this
    {
      bitmapSize <= bytes.Length
    }

    /** The constructor; the memory may go on past the bitmap. */
    constructor (bytes: array<bv8>, bitCount: nat, defaultValue: bool)
      requires (bitCount + 7) / 8 <= bytes.Length
      modifies bytes
      ensures Valid() && this.bytes == bytes && bitmapCount == bitCount && bitmapSize == (bitCount + 7) / 8 && !isFalseBitCached
      ensures forall x: nat | x < 8 * bitmapSize :: At(bytes[..], x) == defaultValue
      ensures bytes[bitmapSize..] == old(bytes[(bitCount + 7) / 8..])
    {
      var n := (bitCount + 7) / 8;
      this.bytes, bitmapSize, bitmapCount := bytes, n, bitCount;
      isFalseBitCached, cacheFalseBitPos := false, 0;
      new;
      for i := 0 to n
        invariant !isFalseBitCached && forall q | 0 <= q < i :: bytes[q] == Fill(defaultValue)
        invariant bytes[n..] == old(bytes[n..])
      {
        bytes[i] := Fill(defaultValue);
      }
      forall x: nat | x < 8 * n ensures At(bytes[..], x) == defaultValue { FillHas(defaultValue, x % 8); }
    }

    /** get */
    method Get(x: nat) returns (b: bool)
      requires x < 8 * bytes.Length
      ensures b == At(bytes[..], x)
    {
      b := Has(bytes[x / 8], x % 8);
    }

    /** set */
    method Set(x: nat, value: bool)
      requires x < 8 * bytes.Length
      modifies bytes
      ensures bytes[..] == SetOne(old(bytes[..]), x, value)
    {
      bytes[x / 8] := With(bytes[x / 8], x % 8, value);
    }

    /** setBits */
    method SetBits(first: nat, size: nat, value: bool)
      requires first + size <= 8 * bytes.Length
      modifies bytes
      ensures bytes[..] == SetEach(old(bytes[..]), first, size, value)
    {
      if size < 8 {
        for i := 0 to size
          invariant bytes[..] == SetEach(old(bytes[..]), first, i, value)
        {
          Set(first + i, value);
        }
        return;
      }
      ghost var before := bytes[..];
      FillRange(first, size, value);
      forall x: nat | x < 8 * |before| ensures At(bytes[..], x) == At(SetEach(before, first, size, value), x) {
        SetEachAt(before, first, size, value, x);
      }
      SameBitmaps(bytes[..], SetEach(before, first, size, value));
    }

    /** The part of setBits for eight bits or more. */
    method FillRange(first: nat, size: nat, value: bool)
      requires first + size <= 8 * bytes.Length && size >= 8
      modifies bytes
      ensures forall x: nat | x < 8 * bytes.Length ::
        At(bytes[..], x) == if first <= x < first + size then value else At(old(bytes[..]), x)
    {
      var firstByte, lastByte := first / 8, (first + size) / 8;
      var begin, end := first % 8, 8 - (first + size) % 8;
      if end == 8 {
        lastByte, end := lastByte - 1, 0;
      }
      ghost var before := bytes[..];
      InsideIsRange(0, first, size);
      WriteBytes(firstByte, lastByte, begin, end, value);
      forall x: nat | x < 8 * |before|
        ensures At(bytes[..], x) == if first <= x < first + size then value else At(before, x)
      {
        InsideIsRange(x, first, size);
        FilledHas(before[x / 8], x / 8, x % 8, firstByte, lastByte, begin, end, value);
      }
    }

    method WriteBytes(firstByte: nat, lastByte: nat, begin: nat, end: nat, value: bool)
      requires firstByte <= lastByte < bytes.Length && begin < 8 && end < 8
      modifies bytes
      ensures forall q | 0 <= q < bytes.Length :: bytes[q] == Filled(old(bytes[q]), q, firstByte, lastByte, begin, end, value)
    {
      bytes[firstByte] := High(bytes[firstByte], begin, value);
      var i := firstByte + 1;
      while i < lastByte
        invariant firstByte < i && (i <= lastByte || i == firstByte + 1)
        invariant forall q | 0 <= q < bytes.Length ::
          bytes[q] == if q == firstByte then High(old(bytes[q]), begin, value)
                      else if firstByte < q < i then Fill(value) else old(bytes[q])
      {
        bytes[i] := Fill(value);
        i := i + 1;
      }
      bytes[lastByte] := Low(bytes[lastByte], end, value);
    }

    /** find_false */
    method FindFalse() returns (pos: nat)
      requires Valid()
      modifies this
      ensures Valid() && !isFalseBitCached
      ensures pos == if old(isFalseBitCached) then old(cacheFalseBitPos) else PositionOf(FirstFalse(bytes[..], bitmapSize, 0))
    {
      if isFalseBitCached {
        isFalseBitCached := false;
        return cacheFalseBitPos;
      }
      for i := 0 to bitmapSize
        invariant !isFalseBitCached
        invariant FirstFalse(bytes[..], bitmapSize, i) == FirstFalse(bytes[..], bitmapSize, 0)
      {
        FullByte(bytes[i]);
        if bytes[i] != 0xFF {
          var k := ClearBitOf(bytes[i]);
          return i * 8 + k;
        }
      }
      pos := NPOS;
    }

    /** The loop over the bits of one byte. */
    static method ClearBitOf(b: bv8) returns (k: nat)
      ensures k == FirstClear(b, 0)
    {
      k := 0;
      while k < 8 && Has(b, k)
        invariant k <= 8 && FirstClear(b, k) == FirstClear(b, 0)
      {
        k := k + 1;
      }
    }

    /** The loop that looks for a set bit among n. */
    method AllClear(x: nat, n: nat) returns (clear: bool)
      requires x + n <= 8 * bytes.Length
      ensures clear == Clear(bytes[..], x, n)
    {
      for j := 0 to n
        invariant Clear(bytes[..], x, j)
      {
        var taken := Get(x + j);
        if taken { return false; }
      }
      clear := true;
    }

    /** One byte of find_false_bits: its first clear bit, if any, and whether n clear bits start there. */
    method TryByte(i: nat, n: nat) returns (x: Option<nat>, clear: bool)
      requires i < bitmapSize <= bytes.Length && 8 * bitmapSize + n <= 8 * bytes.Length + 1
      ensures clear ==> x.Some?
      ensures FirstRun(bytes[..], bitmapSize, n, i) == if clear then x else FirstRun(bytes[..], bitmapSize, n, i + 1)
      ensures FirstFalse(bytes[..], bitmapSize, i) == if x.Some? then x else FirstFalse(bytes[..], bitmapSize, i + 1)
    {
      FullByte(bytes[i]);
      if bytes[i] == 0xFF { return None, false; }
      var k := ClearBitOf(bytes[i]);
      clear := AllClear(i * 8 + k, n);
      x := Some(i * 8 + k);
      ScanStep(bytes[..], bitmapSize, n, i, k, i * 8 + k);
    }

    /** find_false_bits; the memory past the bitmap is read when a run reaches its end. */
    method FindFalseBits(n: nat, cache: bool) returns (pos: nat)
      requires Valid() && 8 * bitmapSize + n <= 8 * bytes.Length + 1
      modifies this
      ensures Valid() && isFalseBitCached == cache
      ensures pos == PositionOf(FirstRun(bytes[..], bitmapSize, n, 0))
      ensures cache ==> cacheFalseBitPos == PositionOf(Cached(bytes[..], bitmapSize, n))
    {
      isFalseBitCached := cache;
      var pending := cache;
      ghost var b := bytes[..];
      ghost var run, first := FirstRun(b, bitmapSize, n, 0), FirstFalse(b, bitmapSize, 0);
      for i := 0 to bitmapSize
        invariant isFalseBitCached == cache && (pending ==> cache) && bytes[..] == b
        invariant FirstRun(b, bitmapSize, n, i) == run
        invariant pending ==> FirstFalse(b, bitmapSize, i) == first
        invariant cache && !pending ==> first == Some(cacheFalseBitPos)
      {
        var x, clear := TryByte(i, n);
        if x.Some? && pending {
          cacheFalseBitPos := x.value;
          pending := false;
        }
        if clear { return x.value; }
      }
      cacheFalseBitPos := NPOS;
      pos := NPOS;
    }
  }
}
