/**
 The value codec. Raw and zstd forms share one byte space and are told apart by the frame's magic number
 alone (section 3.1.1 of RFC 8878). The zstd library is a parameter.
 */
module Codec {
  import opened Wrappers
  import opened Records

  const ZSTD_MAGIC: Bytes := [0x28, 0xB5, 0x2F, 0xFD]
  const MAX_DECOMPRESSION_SIZE: nat := 10_485_760
  const DECOMPRESS_INITIAL_CAPACITY_CAP: nat := 65_536

  /**
   `decode(frame, capacity)` is one attempt with an output buffer of that capacity; `ready` tells whether a
   decompressor can be set up.
   */
  datatype Zstd = Zstd(encode: Bytes -> Option<Bytes>, decode: (Bytes, nat) -> Option<Bytes>, ready: bool)

  predicate StartsWithMagic(data: Bytes) {
    |data| >= 4 && data[..4] == ZSTD_MAGIC
  }

  /** A library whose encoder, where it succeeds, emits frames that decode whenever the content fits. */
  ghost predicate Sound(z: Zstd) {
    forall x {:trigger z.encode(x)} :: z.encode(x).Some? ==>
      && StartsWithMagic(z.encode(x).value)
      && forall n: nat {:trigger z.decode(z.encode(x).value, n)} ::
           z.decode(z.encode(x).value, n) == if |x| <= n then Some(x) else None
  }

  /** More capacity never turns a success into something else. */
  ghost predicate Monotone(z: Zstd) {
    forall d, m: nat, n: nat {:trigger z.decode(d, m), z.decode(d, n)} ::
      m <= n && z.decode(d, m).Some? ==> z.decode(d, n) == z.decode(d, m)
  }

  function Compress(z: Zstd, enabled: bool, data: Bytes): Bytes {
    if data == [] then []
    else
      var mustDisambiguate := StartsWithMagic(data);
      if !enabled && !mustDisambiguate then data
      else
        match z.encode(data)
        case None => data
        case Some(output) => if !mustDisambiguate && |output| >= |data| then data else output
  }

  function Min(a: nat, b: nat): nat {
    if a < b then a else b
  }

  function Max(a: nat, b: nat): nat {
    if a < b then b else a
  }

  function FirstBuffer(data: Bytes): nat {
    Max(Min(4 * |data|, DECOMPRESS_INITIAL_CAPACITY_CAP), 1024)
  }

  /** The first success among the capacities that doubling from `size` reaches, the cap last; else the bytes themselves. */
  function FirstSuccess(z: Zstd, data: Bytes, size: nat): Bytes
    requires 0 < size <= MAX_DECOMPRESSION_SIZE
    decreases MAX_DECOMPRESSION_SIZE - size
  {
    match z.decode(data, size)
    case Some(x) => x
    case None =>
      if size < MAX_DECOMPRESSION_SIZE then FirstSuccess(z, data, Min(2 * size, MAX_DECOMPRESSION_SIZE)) else data
  }

  /** What a reader gets for stored bytes. */
  function Decoded(z: Zstd, data: Bytes): Bytes {
    if !StartsWithMagic(data) || !z.ready then data else FirstSuccess(z, data, FirstBuffer(data))
  }

  method Decompress(z: Zstd, data: Bytes) returns (output: Bytes)
    ensures output == Decoded(z, data)
  {
    if !StartsWithMagic(data) {
      return data;
    }
    var initialCapacity := Min(4 * |data|, DECOMPRESS_INITIAL_CAPACITY_CAP);
    if !z.ready {
      return data;
    }
    var bufSize := Max(initialCapacity, 1024);
    while true
      invariant 0 < bufSize <= MAX_DECOMPRESSION_SIZE
      invariant FirstSuccess(z, data, bufSize) == Decoded(z, data)
      decreases MAX_DECOMPRESSION_SIZE - bufSize
    {
      match z.decode(data, bufSize)
      case Some(decompressed) => return decompressed;
      case None =>
        if bufSize < MAX_DECOMPRESSION_SIZE {
          bufSize := Min(2 * bufSize, MAX_DECOMPRESSION_SIZE);
        } else {
          return data;
        }
    }
  }

  /** The growing buffer finds what one attempt with the whole cap would. */
  lemma {:induction false} GrowingEqualsOneAttempt(z: Zstd, data: Bytes, size: nat)
    requires Monotone(z)
    requires 0 < size <= MAX_DECOMPRESSION_SIZE
    ensures FirstSuccess(z, data, size)
         == match z.decode(data, MAX_DECOMPRESSION_SIZE) case Some(x) => x case None => data
    decreases MAX_DECOMPRESSION_SIZE - size
  {
    if z.decode(data, size).None? && size < MAX_DECOMPRESSION_SIZE {
      GrowingEqualsOneAttempt(z, data, Min(2 * size, MAX_DECOMPRESSION_SIZE));
    }
  }

  /** Frames of the encoder decode from any starting buffer, as long as the content is within the cap. */
  lemma {:induction false} FrameDecodes(z: Zstd, x: Bytes, size: nat)
    requires Sound(z) && z.encode(x).Some?
    requires |x| <= MAX_DECOMPRESSION_SIZE
    requires 0 < size <= MAX_DECOMPRESSION_SIZE
    ensures FirstSuccess(z, z.encode(x).value, size) == x
    decreases MAX_DECOMPRESSION_SIZE - size
  {
    if |x| > size {
      assert z.decode(z.encode(x).value, size) == None;
      FrameDecodes(z, x, Min(2 * size, MAX_DECOMPRESSION_SIZE));
    }
  }

  /** Beyond the cap none of the attempts does. */
  lemma {:induction false} FrameHasNoRoom(z: Zstd, x: Bytes, size: nat)
    requires Sound(z) && z.encode(x).Some?
    requires |x| > MAX_DECOMPRESSION_SIZE
    requires 0 < size <= MAX_DECOMPRESSION_SIZE
    ensures FirstSuccess(z, z.encode(x).value, size) == z.encode(x).value
    decreases MAX_DECOMPRESSION_SIZE - size
  {
    assert z.decode(z.encode(x).value, size) == None;
    if size < MAX_DECOMPRESSION_SIZE {
      FrameHasNoRoom(z, x, Min(2 * size, MAX_DECOMPRESSION_SIZE));
    }
  }

  /** Raw bytes that look like a frame and could not be re-encoded: the only ones that may not read back. */
  predicate StoredLookalike(z: Zstd, x: Bytes) {
    StartsWithMagic(x) && z.encode(x).None?
  }

  /** The one ambiguous case: a lookalike that the library takes for the frame of something else. */
  predicate Ambiguous(z: Zstd, x: Bytes) {
    && StoredLookalike(z, x)
    && z.decode(x, MAX_DECOMPRESSION_SIZE).Some? && z.decode(x, MAX_DECOMPRESSION_SIZE).value != x
  }

  /** Longer than the cap and stored as a frame: no attempt has room for the content. */
  predicate Overlong(z: Zstd, enabled: bool, x: Bytes) {
    |x| > 10_485_760 && Compress(z, enabled, x) != x
  }

  /**
   A stored value within the cap reads back exactly, compression on or off, and so do bytes that start with the
   magic number when zstd succeeds. A stored lookalike reads back exactly unless one attempt of the library with
   the whole cap decodes it to something else, and a value beyond the cap exactly when it was stored as it is.
   */
  lemma RoundTrip(z: Zstd, enabled: bool, x: Bytes)
    requires Sound(z) && z.ready
    ensures |x| <= 10_485_760 && !StoredLookalike(z, x) ==> Decoded(z, Compress(z, enabled, x)) == x
    ensures Monotone(z) ==>
      (Decoded(z, Compress(z, enabled, x)) == x <==> !Ambiguous(z, x) && !Overlong(z, enabled, x))
  {
    var stored := Compress(z, enabled, x);
    if z.encode(x).Some? && stored == z.encode(x).value {
      if |x| <= MAX_DECOMPRESSION_SIZE {
        FrameDecodes(z, x, FirstBuffer(stored));
      } else {
        FrameHasNoRoom(z, x, FirstBuffer(stored));
      }
    }
    if Monotone(z) && StoredLookalike(z, x) {
      GrowingEqualsOneAttempt(z, x, FirstBuffer(x));
    }
  }

  /**
   The stored form is the encoder's output for a lookalike, and for any other value when compression is on and the
   output is shorter; in all other cases the value is stored as it is. Only a lookalike may grow.
   */
  lemma CompressExactly(z: Zstd, enabled: bool, x: Bytes)
    ensures var lookalike, output := |x| >= 4 && x[..4] == [0x28, 0xB5, 0x2F, 0xFD], z.encode(x);
      && Compress(z, enabled, x)
         == (if x != [] && output.Some? && (lookalike || (enabled && |output.value| < |x|)) then output.value else x)
      && (!lookalike ==> |Compress(z, enabled, x)| <= |x|)
  {
  }

  /** The capacity of attempt `n`: four times the stored length between 1024 and 65536, doubled up to the cap. */
  function Attempt(length: nat, n: nat): nat {
    if n == 0 then if 4 * length < 1024 then 1024 else if 4 * length < 65_536 then 4 * length else 65_536
    else if 2 * Attempt(length, n - 1) < 10_485_760 then 2 * Attempt(length, n - 1)
    else 10_485_760
  }

  /** Bytes without the magic number are read as they are; others are what the first successful attempt makes of them. */
  lemma DecodedExactly(z: Zstd, data: Bytes, n: nat)
    requires z.ready && |data| >= 4 && data[..4] == [0x28, 0xB5, 0x2F, 0xFD] ==>
      forall m: nat :: m < n ==> z.decode(data, Attempt(|data|, m)).None?
    ensures !z.ready || |data| < 4 || data[..4] != [0x28, 0xB5, 0x2F, 0xFD] ==> Decoded(z, data) == data
    ensures z.ready && |data| >= 4 && data[..4] == [0x28, 0xB5, 0x2F, 0xFD] ==>
      && (z.decode(data, Attempt(|data|, n)).Some? ==> Decoded(z, data) == z.decode(data, Attempt(|data|, n)).value)
      && (z.decode(data, Attempt(|data|, n)).None? && Attempt(|data|, n) == 10_485_760 ==> Decoded(z, data) == data)
  {
    if z.ready && StartsWithMagic(data) {
      for m := 0 to n
        invariant 0 < Attempt(|data|, m) <= MAX_DECOMPRESSION_SIZE
        invariant FirstSuccess(z, data, Attempt(|data|, m)) == Decoded(z, data)
      {
        assert z.decode(data, Attempt(|data|, m)).None?;
      }
    }
  }

  // The ambiguous case is possible

  /** A library that only puts the magic number before the content, and fails to encode one value. */
  function Framing(failing: Bytes): Zstd {
    Zstd(
      x => if x == failing then None else Some(ZSTD_MAGIC + x),
      (d, n) => if StartsWithMagic(d) && |d| - 4 <= n then Some(d[4..]) else None,
      true)
  }

  lemma FramingIsSound(failing: Bytes)
    ensures Sound(Framing(failing)) && Monotone(Framing(failing))
  {
    var z := Framing(failing);
    forall x | z.encode(x).Some?
      ensures StartsWithMagic(z.encode(x).value)
      ensures forall n: nat :: z.decode(z.encode(x).value, n) == if |x| <= n then Some(x) else None
    {
      assert (ZSTD_MAGIC + x)[..4] == ZSTD_MAGIC && (ZSTD_MAGIC + x)[4..] == x;
    }
  }

  /** Some library that meets every assumption has an ambiguous value, and that value reads back wrong. */
  lemma AmbiguityHappens(enabled: bool) returns (z: Zstd, x: Bytes)
    ensures Sound(z) && Monotone(z) && z.ready && |x| <= 10_485_760
    ensures Ambiguous(z, x) && Decoded(z, Compress(z, enabled, x)) != x
  {
    x := ZSTD_MAGIC + [0];
    z := Framing(x);
    FramingIsSound(x);
    assert x[..4] == ZSTD_MAGIC && |x[4..]| == 1;
    RoundTrip(z, enabled, x);
  }
}
