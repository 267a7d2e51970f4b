/**
 * The two classes of `InflaterCache.java`: the wrapper
 * `SuitableAndroidInflater` over the platform inflater, and the pool
 * `InflaterCache`. The pool's static fields become the fields of one
 * `InflaterCache` object, which a caller creates once and passes around.
 */
module Lib {
  import opened Wrappers
  import opened Zip
  import PoolSpec

  /**
   * What `SuitableAndroidInflater.inflate` returns: the number of bytes
   * produced, or the `RuntimeException` raised when the one-byte probe of a
   * zero-length call produced data.
   */
  datatype InflateResult = Produced(count: nat) | ProbeProducedData

  /**
   * The zero-length branch of `inflate`: a one-byte call into the private
   * scratch buffer that reports whether the stream still had output.
   */
  function Probe(e: Engine): (r: (InflateResult, Engine))
    ensures r.0.ProbeProducedData? <==> e.pending != []
    ensures r.0.Produced? ==>
      && r.0.count == 0
      && r.1.pending == e.pending
      && r.1.streamEnd == e.streamEnd
      && (r.1.finished <==> e.streamEnd)
    ensures Sound(e) ==> Sound(r.1)
  {
    var s := RawInflate(e, 1);
    if |s.produced| > 0 then (ProbeProducedData, s.next)
    else (Produced(0), s.next)
  }

  /**
   * The behaviour of `SuitableAndroidInflater.inflate(b, off, len)` on
   * the engine state `e`: the result and the engine state afterwards.
   * A non-zero `len` goes straight to the platform inflater; a zero `len`
   * becomes a one-byte probe, which must produce nothing.
   */
  function LenientInflate(e: Engine, len: nat): (r: (InflateResult, Engine))
    ensures r.0.Produced? ==> r.0.count <= len
    ensures len != 0 ==> r.0.Produced?
    ensures len == 0 ==> (r.0.ProbeProducedData? <==> e.pending != [])
    ensures len == 0 && r.0.Produced? ==>
      && r.0.count == 0
      && r.1.pending == e.pending
      && r.1.streamEnd == e.streamEnd
      && (r.1.finished <==> e.streamEnd)
    ensures Sound(e) ==> Sound(r.1)
  {
    if len != 0 then
      var s := RawInflate(e, len);
      (Produced(|s.produced|), s.next)
    else
      Probe(e)
  }

  /** A call with a non-zero length is exactly the platform call. */
  lemma NonZeroLengthDelegates(e: Engine, len: nat)
    requires len != 0
    ensures LenientInflate(e, len).0 == Produced(|RawInflate(e, len).produced|)
    ensures LenientInflate(e, len).1 == RawInflate(e, len).next
  {
  }

  /**
   * Why the probe is there: at the end of the compressed stream a plain
   * zero-length call leaves "finished" unset, while the wrapper's call
   * returns 0 and sets it.
   */
  lemma ZeroLengthSetsFinished(e: Engine)
    requires e.pending == [] && e.streamEnd && !e.finished
    ensures RawInflate(e, 0) == RawStep([], e) && !RawInflate(e, 0).next.finished
    ensures LenientInflate(e, 0) == (Produced(0), Engine([], true, true))
  {
  }

  /**
   * `SuitableAndroidInflater`: a platform inflater whose zero-length
   * `inflate` is corrected and whose `end()` does nothing, so that the
   * native state survives for the pool to reuse.
   */
  class SuitableAndroidInflater {
    /** The shared one-byte scratch buffer of the probe (a static field in the source). */
    const oneByteArray: array<bv8>
    /** The state of the inflater this object extends. */
    var engine: Engine

    constructor (scratch: array<bv8>)
      ensures oneByteArray == scratch && engine == Initial
    {
      oneByteArray := scratch;
      engine := Initial;
    }

    /** `super.inflate(buf, off, len)`: the platform inflater writes its output into `buf[off..]`. */
    method InflateRaw(buf: array<bv8>, off: nat, len: nat) returns (n: nat)
      requires off + len <= buf.Length
      modifies this, buf
      ensures var s := RawInflate(old(engine), len);
              && n == |s.produced|
              && engine == s.next
              && buf[..] == old(buf[..off]) + s.produced + old(buf[off + n..])
    {
      var s := RawInflate(engine, len);
      n := |s.produced|;
      forall k | off <= k < off + n {
        buf[k] := s.produced[k - off];
      }
      engine := s.next;
      assert buf[..] == old(buf[..off]) + s.produced + old(buf[off + n..]);
    }

    /**
     * `inflate(b, off, len)`. With `len != 0` this is the platform call on
     * `b`. With `len == 0` it probes one byte into the scratch buffer, fails
     * when that produced a byte, and otherwise returns 0; `b` and `off` are
     * not looked at, so `b` may be null and `off` anything.
     */
    method Inflate(b: array?<bv8>, off: int, len: nat) returns (r: InflateResult)
      requires len != 0 ==> b != null && 0 <= off && off + len <= b.Length
      requires oneByteArray.Length == 1
      requires b != oneByteArray
      modifies this, b, oneByteArray
      ensures (r, engine) == LenientInflate(old(engine), len)
      ensures len != 0 ==>
        var s := RawInflate(old(engine), len);
        && r == Produced(|s.produced|)
        && engine == s.next
        && b[..] == old(b[..off]) + s.produced + old(b[off + |s.produced|..])
        && oneByteArray[..] == old(oneByteArray[..])
      ensures len == 0 ==>
        var s := RawInflate(old(engine), 1);
        && r == (if |s.produced| > 0 then ProbeProducedData else Produced(0))
        && engine == s.next
        && (b != null ==> b[..] == old(b[..]))
        && oneByteArray[..] == s.produced + old(oneByteArray[|s.produced|..])
    {
      if len != 0 {
        var n := InflateRaw(b, off, len);
        return Produced(n);
      }
      var bytesInflated := InflateRaw(oneByteArray, 0, 1);
      if bytesInflated > 0 {
        return ProbeProducedData;
      }
      return Produced(0);
    }

    /** `reset()`: exactly the platform reset. */
    method Reset()
      modifies this
      ensures engine == Initial
    {
      engine := Initial;
    }

    /** `end()`: deliberately does nothing; the native state is not released. */
    method End()
      ensures unchanged(this)
    {
    }
  }

  /**
   * `InflaterCache`: at most `SZ` idle inflaters in `inflaterCache[0..openInflaterCount)`,
   * handed out most recently released first.
   */
  class InflaterCache {
    const inflaterCache: array<Option<SuitableAndroidInflater>>
    var openInflaterCount: int
    /** The scratch buffer shared by every inflater of this cache (static in the source). */
    const oneByteArray: array<bv8>
    /** Every `reset()`, `end()` and allocation the cache has performed, in order. */
    ghost var log: seq<PoolSpec.Event<SuitableAndroidInflater>>

    /** The array and the counter as a value of the pool model. */
    ghost function Model(): PoolSpec.Pool<SuitableAndroidInflater>
      reads this, inflaterCache
    {
      PoolSpec.Pool(inflaterCache[..], openInflaterCount)
    }

    ghost predicate Valid()
      reads this, inflaterCache
    {
      && inflaterCache.Length == PoolSpec.SZ
      && oneByteArray.Length == 1
      && PoolSpec.Valid(Model())
      && (forall k :: 0 <= k < openInflaterCount ==> inflaterCache[k].value.oneByteArray == oneByteArray)
    }

    /** The static initialiser: `SZ` null slots and a zero count. */
    constructor ()
      ensures Valid() && fresh(inflaterCache) && fresh(oneByteArray)
      ensures Model() == PoolSpec.Empty() && log == []
    {
      inflaterCache := new Option<SuitableAndroidInflater>[PoolSpec.SZ](_ => None);
      oneByteArray := new bv8[1];
      openInflaterCount := 0;
      log := [];
      new;
      assert inflaterCache[..] == PoolSpec.Empty<SuitableAndroidInflater>().slots;
    }

    /** `getImpl()`: pop the top handle and clear its slot, or `None` on an empty pool. */
    method GetImpl() returns (r: Option<SuitableAndroidInflater>)
      requires Valid()
      modifies this`openInflaterCount, inflaterCache
      ensures Valid()
      ensures (Model(), r) == PoolSpec.GetImpl(old(Model()))
    {
      if openInflaterCount > 0 {
        openInflaterCount := openInflaterCount - 1;
        r := inflaterCache[openInflaterCount];
        inflaterCache[openInflaterCount] := None;
      } else {
        r := None;
      }
    }

    /**
     * `get()`: a cached inflater when there is one, otherwise a fresh
     * `SuitableAndroidInflater`. Never null.
     */
    method Get() returns (r: SuitableAndroidInflater)
      requires Valid()
      modifies this`openInflaterCount, this`log, inflaterCache
      ensures Valid()
      ensures var o := PoolSpec.Get(old(Model()), r);
              Model() == o.pool && o.got == Some(r) && log == old(log) + o.events
      ensures r.oneByteArray == oneByteArray
      ensures old(openInflaterCount) == 0 ==> fresh(r) && r.engine == Initial
    {
      var cached := GetImpl();
      if cached.Some? {
        r := cached.value;
      } else {
        r := new SuitableAndroidInflater(oneByteArray);
        log := log + [PoolSpec.Event(PoolSpec.Allocation, r)];
      }
    }

    /** `releaseImpl(i)`: keep `i` when there is room; `true` means the pool was full. */
    method ReleaseImpl(i: SuitableAndroidInflater) returns (full: bool)
      requires Valid() && i.oneByteArray == oneByteArray
      modifies this`openInflaterCount, inflaterCache
      ensures Valid()
      ensures (Model(), full) == PoolSpec.ReleaseImpl(old(Model()), i)
    {
      if openInflaterCount < PoolSpec.SZ {
        inflaterCache[openInflaterCount] := Some(i);
        openInflaterCount := openInflaterCount + 1;
        return false;
      }
      return true;
    }

    /**
     * `release(i)`: nothing for null; otherwise reset `i`, keep it when
     * there is room, and call its `end()` when the pool is full.
     */
    method Release(i: SuitableAndroidInflater?)
      requires Valid() && (i != null ==> i.oneByteArray == oneByteArray)
      modifies this`openInflaterCount, this`log, inflaterCache, i
      ensures Valid()
      ensures var o := PoolSpec.Release(old(Model()), if i == null then None else Some(i));
              Model() == o.pool && log == old(log) + o.events
      ensures i != null ==> i.engine == Initial
    {
      if i != null {
        i.Reset();
        log := log + [PoolSpec.Event(PoolSpec.ResetCall, i)];
        var full := ReleaseImpl(i);
        if full {
          i.End();
          log := log + [PoolSpec.Event(PoolSpec.EndCall, i)];
        }
      }
    }
  }
}
