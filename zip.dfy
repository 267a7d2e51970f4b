/**
 * An abstraction of the platform decompressor `java.util.zip.Inflater`
 * that `SuitableAndroidInflater` extends. The real zlib decoding is native
 * code; all that is kept here is what an `inflate` call can observe: the
 * bytes it hands out, at most as many as were asked for, and the
 * "finished" flag.
 */
module Zip {

  /**
   * The state of one inflater.
   * - `pending`: decompressed bytes that the input fed so far yields and
   *   that no `inflate` call has handed out yet;
   * - `streamEnd`: the input fed so far contains the end of the compressed
   *   stream;
   * - `finished`: what `Inflater.finished()` reports.
   */
  datatype Engine = Engine(pending: seq<bv8>, streamEnd: bool, finished: bool)

  /** A freshly constructed or freshly reset inflater. */
  const Initial: Engine := Engine([], false, false)

  /** The flag never claims more than the engine knows. */
  predicate Sound(e: Engine) {
    e.finished ==> e.streamEnd && e.pending == []
  }

  /** What one call `inflate(buf, off, len)` of the platform inflater does. */
  datatype RawStep = RawStep(produced: seq<bv8>, next: Engine)

  /**
   * The platform inflater. It hands out up to `len` pending bytes. On the
   * platform the wrapper works around, a call asking for zero bytes returns
   * at once without updating the "finished" flag.
   */
  function RawInflate(e: Engine, len: nat): (s: RawStep)
    ensures |s.produced| <= len
    ensures |s.produced| < len ==> s.next.pending == []
    ensures s.next.streamEnd == e.streamEnd
    ensures Sound(e) ==> Sound(s.next)
    ensures len > 0 ==> (s.next.finished <==> e.streamEnd && s.next.pending == [])
    ensures len > 0 && e.pending != [] ==> s.produced != []
  {
    if len == 0 then RawStep([], e)
    else
      var n := if len < |e.pending| then len else |e.pending|;
      var rest := e.pending[n..];
      RawStep(e.pending[..n], Engine(rest, e.streamEnd, e.streamEnd && rest == []))
  }

  /**
   * The platform quirk: a call asking for zero bytes hands out nothing and
   * leaves the whole state as it was, "finished" included, whatever the
   * state is.
   */
  lemma ZeroLengthLeavesState(e: Engine)
    ensures RawInflate(e, 0) == RawStep([], e)
  {
  }

  /**
   * The bytes handed out are the front of the pending output, in order,
   * and what stays pending is the rest of it: nothing is lost, duplicated
   * or reordered.
   */
  lemma InflateHandsOutInOrder(e: Engine, len: nat)
    ensures e.pending == RawInflate(e, len).produced + RawInflate(e, len).next.pending
  {
    if len != 0 {
      var n := if len < |e.pending| then len else |e.pending|;
      assert e.pending == e.pending[..n] + e.pending[n..];
    }
  }
}
