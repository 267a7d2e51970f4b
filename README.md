# InflaterCache in Dafny

A model of JGit's `InflaterCache.java` (package `org.eclipse.jgit.lib`), with proofs. The file has two classes:

- `InflaterCache` is a bounded pool of idle inflaters.
  - It keeps an array `inflaterCache` of `SZ = 4` slots and a counter `openInflaterCount`.
  - `get()` pops the most recently released inflater. When the pool is empty it allocates a fresh `SuitableAndroidInflater`.
  - `release(i)` ignores `null`. Otherwise it resets `i` and pushes it when there is room. When the pool is full it calls `i.end()` instead.
- `SuitableAndroidInflater` wraps the platform `java.util.zip.Inflater`.
  - A zero-length `inflate` becomes a one-byte probe into a shared scratch buffer, so that the "finished" flag gets updated.
  - If the probe produces a byte, the call raises an error.
  - `reset()` passes straight through.
  - `end()` does nothing, so that the native state stays alive for reuse.

The project has four modules:

- `Wrappers` (`wrappers.dfy`): `Option`, which stands for a Java reference that may be null.
- `Zip` (`zip.dfy`): an abstract platform inflater.
  - An `Engine` is the decompressed output that is still pending, whether the end of the compressed stream has been fed, and the `finished()` flag.
  - `RawInflate` is one call of the platform's `inflate(b, off, len)`. It hands out at most `len` pending bytes in order.
  - On the platform the wrapper works around, a call with `len == 0` returns at once and leaves "finished" unset.
- `PoolSpec` (`pool_spec.dfy`): the pool as a value.
  - A `Pool` holds the slots and the count.
  - `getImpl`, `get`, `releaseImpl` and `release` are functions on it.
  - Their side effects on handles (`reset()`, `end()`, allocating a fresh inflater) come back as a list of `Event`s.
  - `Run` executes any sequence of calls. The lemmas about `Run` state what the class promises over many calls: the bound on the count, LIFO reuse, and which handles are ended.
- `Lib` (`lib.dfy`): the two Java classes as Dafny classes.
  - `InflaterCache` keeps `inflaterCache` as an `array<Option<SuitableAndroidInflater>>` and `openInflaterCount` as an `int`.
  - It also has a ghost `log` of every reset, end and allocation it performed.
  - Each of its methods is proved to move `(inflaterCache[..], openInflaterCount)` and the log exactly as the matching `PoolSpec` function does.
  - `SuitableAndroidInflater` holds the engine state and the shared one-byte buffer. Its `Inflate` writes into the caller's array. It is proved equal to the pure `LenientInflate`.

Java's static fields become fields of one `InflaterCache` object, which a caller creates once. This covers the static `inflaterCache` and `openInflaterCount`, and also `SuitableAndroidInflater`'s static `oneByteArray`. The cache owns that buffer and hands it to every inflater it allocates. Its invariant says that every idle inflater uses that same buffer, and `release` accepts only inflaters that do. So every inflater `get` returns shares it, as in Java, and a zero-length `inflate` can be called on any of them.

On a full pool, `release` calls `i.end()` (lines 63-64). For a `SuitableAndroidInflater`, `end()` is a no-op (lines 113-119), so nothing is freed. In the model, `Release` on a full pool logs an `EndCall` event, and the inflater keeps its reset state.

## Model

| member | source | states |
|---|---|---|
| PoolSpec.Idle | org.eclipse.jgit/src/org/eclipse/jgit/lib/InflaterCache.java:23-25 | the idle handles are the first `openInflaterCount`s of the array, in slot order; the top of the stack is the last one |
| PoolSpec.Empty | org.eclipse.jgit/src/org/eclipse/jgit/lib/InflaterCache.java:27-29 | the initial pool of `SZ` null slots and count 0 satisfies the invariant and has no idle handle |
| PoolSpec.GetImpl | org.eclipse.jgit/src/org/eclipse/jgit/lib/InflaterCache.java:44-51 | on an empty pool: nothing is returned and the pool is unchanged; otherwise: the top handle is returned, the count drops by one, the remaining idle handles are the rest of the stack, and the invariant (slots from the count on are null) is kept |
| PoolSpec.Get | org.eclipse.jgit/src/org/eclipse/jgit/lib/InflaterCache.java:39-42 | never returns null; on a non-empty pool: returns the top handle, pops it, allocates nothing; on an empty pool: returns a freshly allocated inflater with one allocation event, and the pool is unchanged |
| PoolSpec.ReleaseImpl | org.eclipse.jgit/src/org/eclipse/jgit/lib/InflaterCache.java:68-74 | reports "full" exactly when the count is `SZ`, and then changes nothing; otherwise pushes the handle on top (slot `count`) and raises the count by one |
| PoolSpec.Release | org.eclipse.jgit/src/org/eclipse/jgit/lib/InflaterCache.java:60-66 | null: pool and events unchanged; room left: one reset, the handle pushed, no end; full pool: pool unchanged, one reset followed by one end |
| PoolSpec.Apply | org.eclipse.jgit/src/org/eclipse/jgit/lib/InflaterCache.java:39-66 | one client call keeps the pool invariant; it hands out a handle exactly when it is a `get` |
| PoolSpec.Run | org.eclipse.jgit/src/org/eclipse/jgit/lib/InflaterCache.java:44-74 | after any sequence of `get`/`release` calls, the invariant still holds and `0 <= openInflaterCount <= SZ` |
| PoolSpec.RunAppend | org.eclipse.jgit/src/org/eclipse/jgit/lib/InflaterCache.java:39-66 | two runs of calls one after the other equal one run of their concatenation: the handles handed out and the events concatenate |
| PoolSpec.ReleaseThenGet | org.eclipse.jgit/src/org/eclipse/jgit/lib/InflaterCache.java:44-49 | LIFO: after releasing `h` into a pool with room, the next `get` returns exactly `h`, allocates nothing and restores the pool exactly |
| PoolSpec.ReleaseMany | org.eclipse.jgit/src/org/eclipse/jgit/lib/InflaterCache.java:68-72 | releasing `hs` in order keeps the first `min(SZ - count, |hs|)` of them, in order, on top of the idle ones, and hands out nothing |
| PoolSpec.ReleaseManyEvents | org.eclipse.jgit/src/org/eclipse/jgit/lib/InflaterCache.java:60-74 | releasing `hs` resets every handle exactly once; exactly the handles that find no room are also ended, each right after its reset |
| PoolSpec.DrainReversed | org.eclipse.jgit/src/org/eclipse/jgit/lib/InflaterCache.java:44-49 | the stack discipline hands out the idle handles newest first, then one fresh inflater per remaining call |
| PoolSpec.GetManyHandsOut | org.eclipse.jgit/src/org/eclipse/jgit/lib/InflaterCache.java:39-49 | a run of `get` calls hands out what the stack discipline (`Drain`) prescribes |
| PoolSpec.GetManyLeaves | org.eclipse.jgit/src/org/eclipse/jgit/lib/InflaterCache.java:44-49 | after `n` gets, the idle handles are the bottom `count - min(count, n)` of the stack |
| PoolSpec.GetManyEvents | org.eclipse.jgit/src/org/eclipse/jgit/lib/InflaterCache.java:39-42 | a run of gets allocates exactly one inflater per call that found the pool empty, and resets or ends nothing |
| PoolSpec.FiveReleases | org.eclipse.jgit/src/org/eclipse/jgit/lib/InflaterCache.java:60-74 | releasing H1..H5 into a fresh pool keeps H1..H4; the events are five resets followed by one end of H5 |
| PoolSpec.FourIdleThenFiveGets | org.eclipse.jgit/src/org/eclipse/jgit/lib/InflaterCache.java:39-51 | five gets on a pool holding H1..H4 return H4, H3, H2, H1 and then a freshly allocated inflater, with one allocation, and leave the pool empty |
| PoolSpec.FiveReleasesThenFiveGets | org.eclipse.jgit/src/org/eclipse/jgit/lib/InflaterCache.java:39-74 | the whole scenario from a fresh pool: the gets return H4, H3, H2, H1 and then a fresh inflater; the events are five resets, the end of H5 and one allocation |
| Zip.RawInflate | org.eclipse.jgit/src/org/eclipse/jgit/lib/InflaterCache.java:93-98 | the platform call hands out at most `len` bytes and stops short only when nothing is left pending; with `len > 0`, "finished" reports that the stream end was fed and nothing is pending; a consistent state stays consistent |
| Zip.ZeroLengthLeavesState | org.eclipse.jgit/src/org/eclipse/jgit/lib/InflaterCache.java:96-98 | for every engine state, a zero-length platform call hands out nothing and leaves the state, "finished" included, exactly as it was: the quirk the wrapper corrects |
| Zip.InflateHandsOutInOrder | org.eclipse.jgit/src/org/eclipse/jgit/lib/InflaterCache.java:93 | the bytes handed out are the front of the pending output, and the rest stays pending: nothing is lost, repeated or reordered |
| Lib.Probe | org.eclipse.jgit/src/org/eclipse/jgit/lib/InflaterCache.java:96-103 | the probe raises the error exactly when output was still pending; otherwise it returns 0, nothing stays pending, and "finished" is set exactly when the stream end has been fed |
| Lib.LenientInflate | org.eclipse.jgit/src/org/eclipse/jgit/lib/InflaterCache.java:91-104 | a non-zero `len` never raises the error and produces at most `len` bytes; a zero `len` raises it exactly when output was pending, and otherwise returns 0 with "finished" corrected; a consistent engine stays consistent |
| Lib.NonZeroLengthDelegates | org.eclipse.jgit/src/org/eclipse/jgit/lib/InflaterCache.java:92-94 | with `len != 0`, the result and the new state are exactly the platform call's |
| Lib.ZeroLengthSetsFinished | org.eclipse.jgit/src/org/eclipse/jgit/lib/InflaterCache.java:96-98 | at the end of the stream, a plain zero-length call leaves "finished" unset; the wrapper's call returns 0 and sets it |
| Lib.SuitableAndroidInflater.constructor | org.eclipse.jgit/src/org/eclipse/jgit/lib/InflaterCache.java:85-87 | a new inflater is in the initial state and uses the shared scratch buffer |
| Lib.SuitableAndroidInflater.InflateRaw | org.eclipse.jgit/src/org/eclipse/jgit/lib/InflaterCache.java:93 | the platform call writes the bytes it produced into `buf[off..off+n)`, leaves the rest of `buf` alone, and moves the engine to the platform's next state |
| Lib.SuitableAndroidInflater.Inflate | org.eclipse.jgit/src/org/eclipse/jgit/lib/InflaterCache.java:91-104 | the result and the new engine state are `LenientInflate`'s; with `len != 0`: the output goes into `b` and the scratch buffer is untouched; with `len == 0`: the platform is asked for one byte into the scratch buffer, `b` (which may be null, with any `off`) is untouched, and the error is raised exactly when that byte was produced |
| Lib.SuitableAndroidInflater.Reset | org.eclipse.jgit/src/org/eclipse/jgit/lib/InflaterCache.java:106-111 | the engine returns to the initial state, exactly as the platform reset does |
| Lib.SuitableAndroidInflater.End | org.eclipse.jgit/src/org/eclipse/jgit/lib/InflaterCache.java:113-119 | changes nothing: the native state is kept for reuse |
| Lib.InflaterCache.constructor | org.eclipse.jgit/src/org/eclipse/jgit/lib/InflaterCache.java:23-29 | `SZ` null slots, count 0, an empty log, and the pool invariant holds |
| Lib.InflaterCache.GetImpl | org.eclipse.jgit/src/org/eclipse/jgit/lib/InflaterCache.java:44-51 | the array, the counter and the result move exactly as `PoolSpec.GetImpl` says, and the invariant is kept |
| Lib.InflaterCache.Get | org.eclipse.jgit/src/org/eclipse/jgit/lib/InflaterCache.java:39-42 | the pool and the log move exactly as `PoolSpec.Get` says, with the returned object as the handle; the returned inflater always shares the cache's scratch buffer; on an empty pool it is freshly allocated and in the initial state |
| Lib.InflaterCache.ReleaseImpl | org.eclipse.jgit/src/org/eclipse/jgit/lib/InflaterCache.java:68-74 | the array, the counter and the "full" answer move exactly as `PoolSpec.ReleaseImpl` says, and the invariant is kept |
| Lib.InflaterCache.Release | org.eclipse.jgit/src/org/eclipse/jgit/lib/InflaterCache.java:60-66 | the pool and the log move exactly as `PoolSpec.Release` says (null: nothing; room: reset and push; full: reset and end); a released inflater is left in the initial state, even when the pool was full; the invariant that every idle inflater shares the cache's scratch buffer is kept |

## Left out

- `synchronized` on `getImpl` and `releaseImpl`, and all multi-threaded behaviour. Each method is modelled as one atomic, sequential step.
- The real zlib decoding done by `java.util.zip.Inflater`. It is native code, so the engine is abstract: the output that is still pending, the stream-end flag, and the `finished()` flag. How compressed input is fed (`setInput`) is not modelled.
- `DataFormatException` raised by the platform inflater on malformed input is not modelled. The abstract engine never rejects its input.
- The `RuntimeException` of the zero-length probe is a result value, `ProbeProducedData`, not a thrown exception.
- The private constructor that throws `UnsupportedOperationException` (lines 76-78). It only stops instantiation of a class with static members.
- The `nowrap` flag passed to `super(b)`. It only selects the zlib header format, which the abstract engine does not have.
- The commented-out logging in `reset()` and `end()`.
- Allocation failure of a fresh inflater. The code assumes allocation always succeeds.
- Handles are `SuitableAndroidInflater` objects only.
  - `release` in Java also accepts a plain `java.util.zip.Inflater`. For such an object, `end()` would free its native memory.
  - That case is not modelled.
- Lib.SuitableAndroidInflater.Inflate: with `len != 0`, requires a non-null `b` and `0 <= off`, `off + len <= b.Length`. The platform call throws `NullPointerException` or `ArrayIndexOutOfBoundsException` otherwise; that path is not modelled. With `len == 0` there is no such requirement: `b` may be null and `off` any integer.
- Lib.SuitableAndroidInflater.Inflate: `len` is a `nat`. A negative `len` goes to the platform call in Java, which throws `ArrayIndexOutOfBoundsException`; that path is not modelled.
- Lib.SuitableAndroidInflater.Inflate: requires that `b` is not the private scratch buffer. No caller can obtain that buffer.
- Lib.InflaterCache.Release: requires that a non-null `i` uses the cache's scratch buffer. In Java the buffer is one static field, so every `SuitableAndroidInflater` meets this.
- Lib.InflaterCache.Get: promises nothing about the engine state of a cached inflater that it hands out.
  - `release` reset that inflater when it was stored.
  - A caller that kept its own reference could still change it while it sits in the pool, and the model does not rule this out.
- Re-releasing a handle that is already idle, or one that was ended, is not prevented. The Java code does not prevent it either.
