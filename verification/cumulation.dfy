/** The byte-cumulating decode loop that a Netty byte-to-message decoder runs on every
    read: append the new bytes to the cumulation, then call `decode` while bytes remain
    and the call made progress. The loop is generic over the `decode` step. */
module Cumulation {
  import opened Wrappers
  import opened JavaTypes

  /** The effect of one `decode` call: nothing emitted and the reader index restored,
      exactly one unit emitted after consuming `consumed` bytes, or an exception thrown
      after reading `consumed` bytes that are not given back. */
  datatype Step<+U, +E> = NeedMore | Emit(unit: U, consumed: nat) | Corrupt(reason: E, consumed: nat)

  /** What one read yields: the units emitted, in order; the bytes left in the
      cumulation; the exception that ended the loop, if any. */
  datatype Decoded<+U, +E> = Decoded(units: seq<U>, rest: seq<byte>, failure: Option<E>)

  /** A step that emits always consumes at least one byte, and no step consumes more
      than it has. */
  ghost predicate Consumes<U, E>(step: seq<byte> -> Step<U, E>)
  {
    forall buf :: ConsumesAt(step, buf)
  }

  ghost predicate ConsumesAt<U, E>(step: seq<byte> -> Step<U, E>, buf: seq<byte>)
  {
    && (step(buf).Emit? ==> 1 <= step(buf).consumed <= |buf|)
    && (step(buf).Corrupt? ==> step(buf).consumed <= |buf|)
  }

  /** A step that waits for more bytes only when it must: whatever it decided on `a`
      it decides again on any extension of `a`. */
  ghost predicate PrefixStable<U, E>(step: seq<byte> -> Step<U, E>)
  {
    forall a, b :: StableAt(step, a, b)
  }

  /** The instance of `PrefixStable` for one input and one extension. */
  ghost predicate StableAt<U, E>(step: seq<byte> -> Step<U, E>, a: seq<byte>, b: seq<byte>)
  {
    !step(a).NeedMore? ==> step(a + b) == step(a)
  }

  /** Call `step` while bytes remain and a call emits something. An exception ends the
      loop: the units emitted before it are still passed on, and the bytes the failing
      call read stay consumed, so the cumulation keeps only what follows them. */
  function Cumulate<U, E>(step: seq<byte> -> Step<U, E>, buf: seq<byte>): (d: Decoded<U, E>)
    requires Consumes(step)
    ensures |d.rest| <= |buf| && d.rest == buf[|buf| - |d.rest|..]
    decreases |buf|
  {
    if |buf| == 0 then Decoded([], [], None)
    else
      var s := step(buf);
      assert ConsumesAt(step, buf);
      if s.NeedMore? then Decoded([], buf, None)
      else if s.Corrupt? then Decoded([], buf[s.consumed..], Some(s.reason))
      else
        var d := Cumulate(step, buf[s.consumed..]);
        Decoded([s.unit] + d.units, d.rest, d.failure)
  }

  function Prepend<U, E>(units: seq<U>, d: Decoded<U, E>): Decoded<U, E>
  {
    Decoded(units + d.units, d.rest, d.failure)
  }

  /** One turn of the loop: a step that emits contributes its unit ahead of whatever
      the rest of the input yields. */
  lemma CumulateEmit<U, E>(step: seq<byte> -> Step<U, E>, buf: seq<byte>, u: U, c: nat)
    requires Consumes(step)
    requires step(buf) == Emit(u, c)
    ensures 1 <= c <= |buf|
    ensures Cumulate(step, buf) == Prepend([u], Cumulate(step, buf[c..]))
  {
    assert ConsumesAt(step, buf);
  }

  /** The two ways decoding `a ++ b` relates to decoding `a`. When the loop on `a`
      ends without an exception, decoding `a ++ b` is decoding `a`, then decoding what
      `a` left behind followed by `b`. When it ends on an exception, `a ++ b` stops on
      the same exception after the same units, and `b` is only kept. */
  lemma {:induction false} CumulateSplit<U, E>(step: seq<byte> -> Step<U, E>, a: seq<byte>, b: seq<byte>)
    requires Consumes(step) && PrefixStable(step)
    ensures SplitsAt(step, a, b)
    decreases |a|
  {
    if |a| == 0 {
      assert a + b == b;
      assert [] + Cumulate(step, b).units == Cumulate(step, b).units;
    } else {
      var s := step(a);
      assert ConsumesAt(step, a);
      if s.NeedMore? {
        assert Cumulate(step, a) == Decoded([], a, None);
        assert [] + Cumulate(step, a + b).units == Cumulate(step, a + b).units;
      } else if s.Corrupt? {
        assert StableAt(step, a, b);
        assert (a + b)[s.consumed..] == a[s.consumed..] + b;
      } else {
        assert StableAt(step, a, b);
        var c := s.consumed;
        assert (a + b)[c..] == a[c..] + b;
        CumulateSplit(step, a[c..], b);
        SplitAfterEmit(step, a, b, s.unit, c);
      }
    }
  }

  /** The statement of `CumulateSplit` for one split. */
  ghost predicate SplitsAt<U, E>(step: seq<byte> -> Step<U, E>, a: seq<byte>, b: seq<byte>)
    requires Consumes(step)
  {
    var d := Cumulate(step, a);
    && (d.failure.None? ==> Cumulate(step, a + b) == Prepend(d.units, Cumulate(step, d.rest + b)))
    && (d.failure.Some? ==> Cumulate(step, a + b) == Decoded(d.units, d.rest + b, d.failure))
  }

  /** The step of `CumulateSplit` past one emitted unit, given the split of the rest. */
  lemma SplitAfterEmit<U, E>(step: seq<byte> -> Step<U, E>, a: seq<byte>, b: seq<byte>, u: U, c: nat)
    requires Consumes(step)
    requires step(a) == Emit(u, c) && step(a + b) == Emit(u, c)
    requires c <= |a| && (a + b)[c..] == a[c..] + b
    requires SplitsAt(step, a[c..], b)
    ensures SplitsAt(step, a, b)
  {
    var tail := Cumulate(step, a[c..]);
    CumulateEmit(step, a, u, c);
    CumulateEmit(step, a + b, u, c);
    if tail.failure.None? {
      var later := Cumulate(step, tail.rest + b);
      ConcatAssoc([u], tail.units, later.units);
    }
  }

  /** What a loop that ended without an exception leaves behind decodes to nothing
      more on its own. */
  lemma {:induction false} CumulateRestSettled<U, E>(step: seq<byte> -> Step<U, E>, buf: seq<byte>)
    requires Consumes(step)
    ensures Cumulate(step, buf).failure.None? ==> Settled(step, Cumulate(step, buf).rest)
    decreases |buf|
  {
    if |buf| > 0 {
      var s := step(buf);
      assert ConsumesAt(step, buf);
      if s.Emit? {
        CumulateRestSettled(step, buf[s.consumed..]);
      }
    }
  }

  /** Where a loop that ended on an exception stopped: the failing call started at
      offset `j` and read `c` bytes, and the cumulation keeps exactly what follows. */
  ghost predicate CorruptAt<U, E>(step: seq<byte> -> Step<U, E>, buf: seq<byte>, j: nat, c: nat)
    requires Consumes(step)
  {
    var d := Cumulate(step, buf);
    && d.failure.Some?
    && j + c <= |buf|
    && step(buf[j..]) == Corrupt(d.failure.value, c)
    && d.rest == buf[j + c..]
  }

  lemma {:induction false} CorruptionLocated<U, E>(step: seq<byte> -> Step<U, E>, buf: seq<byte>)
    requires Consumes(step)
    requires Cumulate(step, buf).failure.Some?
    ensures exists j: nat, c: nat :: CorruptAt(step, buf, j, c)
    decreases |buf|
  {
    var s := step(buf);
    assert ConsumesAt(step, buf);
    if s.Corrupt? {
      assert buf[0..] == buf;
      assert CorruptAt(step, buf, 0, s.consumed);
    } else {
      var c := s.consumed;
      CorruptionLocated(step, buf[c..]);
      var j: nat, c': nat :| CorruptAt(step, buf[c..], j, c');
      assert buf[c..][j..] == buf[c + j..];
      assert buf[c..][j + c'..] == buf[c + j + c'..];
      assert CorruptAt(step, buf, c + j, c');
    }
  }

  /** A cumulation the loop can be left with: it decodes to nothing more. */
  ghost predicate Settled<U, E>(step: seq<byte> -> Step<U, E>, cumulation: seq<byte>)
    requires Consumes(step)
  {
    Cumulate(step, cumulation) == Decoded([], cumulation, None)
  }

  /** One read event: append the chunk to the cumulation and run the loop. Between
      run the decoder keeps its cumulation and nothing else; an exception belongs to
      the read that threw it. */
  function Feed<U, E>(step: seq<byte> -> Step<U, E>, cumulation: seq<byte>, chunk: seq<byte>): (d: Decoded<U, E>)
    requires Consumes(step)
    ensures var buf := cumulation + chunk; |d.rest| <= |buf| && d.rest == buf[|buf| - |d.rest|..]
    ensures d.failure.None? && Settled(step, cumulation) ==> Settled(step, d.rest)
  {
    CumulateRestSettled(step, cumulation + chunk);
    Cumulate(step, cumulation + chunk)
  }

  /** A run of read events: what each read yields, in order, each starting from the
      cumulation the previous one left. */
  function FeedAll<U, E>(step: seq<byte> -> Step<U, E>, cumulation: seq<byte>, chunks: seq<seq<byte>>): (run: seq<Decoded<U, E>>)
    requires Consumes(step)
    ensures |run| == |chunks|
    decreases |chunks|
  {
    if |chunks| == 0 then []
    else
      var d := Feed(step, cumulation, chunks[0]);
      [d] + FeedAll(step, d.rest, chunks[1..])
  }

  /** All units of a run of reads, in order. */
  function Units<U, E>(run: seq<Decoded<U, E>>): seq<U>
    decreases |run|
  {
    if |run| == 0 then [] else run[0].units + Units(run[1..])
  }

  /** No read of the run threw. */
  ghost predicate Clean<U, E>(run: seq<Decoded<U, E>>)
  {
    forall k :: 0 <= k < |run| ==> run[k].failure.None?
  }

  /** The cumulation after a run of reads that started from `cumulation`. */
  function Last<U, E>(cumulation: seq<byte>, run: seq<Decoded<U, E>>): seq<byte>
  {
    if |run| == 0 then cumulation else run[|run| - 1].rest
  }

  function Flatten(chunks: seq<seq<byte>>): seq<byte>
    decreases |chunks|
  {
    if |chunks| == 0 then [] else chunks[0] + Flatten(chunks[1..])
  }

  /** Read `k` of a run is the first that threw, it threw what one read of all the
      bytes throws, the reads up to it emitted the same units, and what it kept,
      followed by the chunks still to come, is what one read keeps. */
  ghost predicate FirstFailureAt<U, E>(run: seq<Decoded<U, E>>, chunks: seq<seq<byte>>, k: nat, whole: Decoded<U, E>)
  {
    && k < |run| && k < |chunks|
    && Clean(run[..k])
    && run[k].failure == whole.failure
    && Units(run[..k + 1]) == whole.units
    && run[k].rest + Flatten(chunks[k + 1..]) == whole.rest
  }

  /** The statement of `FeedAllFromSettled`. */
  ghost predicate AgreesWithOneRead<U, E>(step: seq<byte> -> Step<U, E>, cumulation: seq<byte>, chunks: seq<seq<byte>>)
    requires Consumes(step)
  {
    var whole := Cumulate(step, cumulation + Flatten(chunks));
    var run := FeedAll(step, cumulation, chunks);
    && (whole.failure.None? ==> Clean(run) && Units(run) == whole.units && Last(cumulation, run) == whole.rest)
    && (whole.failure.Some? ==> exists k: nat :: FirstFailureAt(run, chunks, k, whole))
  }

  /** From a settled cumulation, a run of reads agrees with one read of the cumulation
      followed by all the chunks: without an exception, the reads throw nothing, emit
      the same units and end with the same cumulation; with one, the first read that
      throws throws the same exception, after the same units, keeping the same
      bytes. */
  lemma {:induction false} FeedAllFromSettled<U, E>(step: seq<byte> -> Step<U, E>, cumulation: seq<byte>, chunks: seq<seq<byte>>)
    requires Consumes(step) && PrefixStable(step)
    requires Settled(step, cumulation)
    ensures AgreesWithOneRead(step, cumulation, chunks)
    decreases |chunks|
  {
    if |chunks| == 0 {
      assert cumulation + Flatten(chunks) == cumulation;
    } else {
      var x := cumulation + chunks[0];
      var d := Cumulate(step, x);
      var more := Flatten(chunks[1..]);
      assert cumulation + Flatten(chunks) == x + more by {
        ConcatAssoc(cumulation, chunks[0], more);
      }
      var run := FeedAll(step, cumulation, chunks);
      var tail := FeedAll(step, d.rest, chunks[1..]);
      assert run == [d] + tail;
      CumulateSplit(step, x, more);
      if d.failure.None? {
        CumulateRestSettled(step, x);
        FeedAllFromSettled(step, d.rest, chunks[1..]);
        RunAfterCleanRead(d, tail, chunks, Cumulate(step, d.rest + more), Cumulate(step, x + more));
      } else {
        FirstReadFails(d, tail, chunks, Cumulate(step, x + more));
      }
    }
  }

  /** The step of `FeedAllFromSettled` when the first read throws nothing. */
  lemma RunAfterCleanRead<U, E>(d: Decoded<U, E>, tail: seq<Decoded<U, E>>, chunks: seq<seq<byte>>,
                                later: Decoded<U, E>, whole: Decoded<U, E>)
    requires |chunks| >= 1 && |tail| == |chunks| - 1
    requires d.failure.None? && whole == Prepend(d.units, later)
    requires later.failure.None? ==> Clean(tail) && Units(tail) == later.units && Last(d.rest, tail) == later.rest
    requires later.failure.Some? ==> exists k: nat :: FirstFailureAt(tail, chunks[1..], k, later)
    ensures var run := [d] + tail;
      && (whole.failure.None? ==> Clean(run) && Units(run) == whole.units && Last(d.rest, tail) == whole.rest)
      && (whole.failure.Some? ==> exists k: nat :: FirstFailureAt(run, chunks, k, whole))
  {
    UnitsCons(d, tail);
    CleanCons(d, tail);
    if later.failure.Some? {
      var k: nat :| FirstFailureAt(tail, chunks[1..], k, later);
      FailureAfterCleanRead(d, tail, chunks, k, later, whole);
    }
  }

  lemma FailureAfterCleanRead<U, E>(d: Decoded<U, E>, tail: seq<Decoded<U, E>>, chunks: seq<seq<byte>>, k: nat,
                                    later: Decoded<U, E>, whole: Decoded<U, E>)
    requires |chunks| >= 1 && |tail| == |chunks| - 1
    requires d.failure.None? && whole == Prepend(d.units, later)
    requires FirstFailureAt(tail, chunks[1..], k, later)
    ensures FirstFailureAt([d] + tail, chunks, k + 1, whole)
  {
    var run := [d] + tail;
    assert run[..k + 1] == [d] + tail[..k];
    CleanCons(d, tail[..k]);
    assert run[..k + 2] == [d] + tail[..k + 1];
    UnitsCons(d, tail[..k + 1]);
    assert run[k + 1] == tail[k];
    assert chunks[k + 2..] == chunks[1..][k + 1..];
  }

  lemma UnitsCons<U, E>(d: Decoded<U, E>, tail: seq<Decoded<U, E>>)
    ensures Units([d] + tail) == d.units + Units(tail)
  {
    assert ([d] + tail)[1..] == tail;
  }

  lemma CleanCons<U, E>(d: Decoded<U, E>, tail: seq<Decoded<U, E>>)
    ensures Clean([d] + tail) <==> d.failure.None? && Clean(tail)
  {
    var run := [d] + tail;
    assert run[0] == d;
    assert forall k :: 0 <= k < |tail| ==> run[k + 1] == tail[k];
  }

  /** The step of `FeedAllFromSettled` when the first read throws. */
  lemma FirstReadFails<U, E>(d: Decoded<U, E>, tail: seq<Decoded<U, E>>, chunks: seq<seq<byte>>, whole: Decoded<U, E>)
    requires |chunks| >= 1
    requires d.failure.Some? && whole == Decoded(d.units, d.rest + Flatten(chunks[1..]), d.failure)
    ensures FirstFailureAt([d] + tail, chunks, 0, whole)
  {
    var run := [d] + tail;
    assert run[..1] == [d];
    assert run[..1][1..] == [];
    assert d.units + [] == d.units;
  }

  lemma ConcatAssoc<T>(a: seq<T>, b: seq<T>, c: seq<T>)
    ensures a + (b + c) == (a + b) + c
  {
  }

  /** Input made of pieces each of which the step emits as one unit, whatever follows
      it, decodes to exactly those units and leaves nothing behind. */
  lemma {:induction false} CumulatePieces<U, E>(step: seq<byte> -> Step<U, E>, pieces: seq<seq<byte>>, units: seq<U>)
    requires Consumes(step)
    requires |pieces| == |units|
    requires forall k, rest :: 0 <= k < |pieces| ==>
      step(pieces[k] + rest) == Emit(units[k], |pieces[k]|)
    ensures Cumulate(step, Flatten(pieces)) == Decoded(units, [], None)
    decreases |pieces|
  {
    if |pieces| > 0 {
      var more := Flatten(pieces[1..]);
      assert step(pieces[0] + more) == Emit(units[0], |pieces[0]|);
      CumulateEmit(step, pieces[0] + more, units[0], |pieces[0]|);
      assert (pieces[0] + more)[|pieces[0]|..] == more;
      assert forall k, rest :: 0 <= k < |pieces[1..]| ==>
        step(pieces[1..][k] + rest) == Emit(units[1..][k], |pieces[1..][k]|) by {
        forall k, rest | 0 <= k < |pieces[1..]|
          ensures step(pieces[1..][k] + rest) == Emit(units[1..][k], |pieces[1..][k]|)
        {
          assert pieces[1..][k] == pieces[k + 1];
        }
      }
      CumulatePieces(step, pieces[1..], units[1..]);
      assert [units[0]] + units[1..] == units;
    }
  }

  /** However the bytes are split into reads, a fresh decoder agrees with one read of
      all of them: when that read throws nothing, no read throws, and the reads emit
      the same units and end with the same cumulation; when it throws, the first read
      that throws throws the same exception, the reads up to it emit the same units,
      and what it keeps plus the later chunks is what the single read keeps. */
  lemma ChunkingIrrelevant<U, E>(step: seq<byte> -> Step<U, E>, chunks: seq<seq<byte>>)
    requires Consumes(step) && PrefixStable(step)
    ensures AgreesWithOneRead(step, [], chunks)
  {
    assert Settled(step, []);
    FeedAllFromSettled(step, [], chunks);
  }

  /** After a read that throws, the next read starts from the bytes that follow those
      the failing call read, followed by its own chunk: decoding resumes there. */
  lemma ReadAfterCorruption<U, E>(step: seq<byte> -> Step<U, E>, cumulation: seq<byte>, chunk: seq<byte>, next: seq<byte>)
    requires Consumes(step)
    requires Cumulate(step, cumulation + chunk).failure.Some?
    ensures var buf := cumulation + chunk;
      var run := FeedAll(step, cumulation, [chunk, next]);
      exists j: nat, c: nat :: CorruptAt(step, buf, j, c) && run[1] == Cumulate(step, buf[j + c..] + next)
  {
    var buf := cumulation + chunk;
    CorruptionLocated(step, buf);
    var j: nat, c: nat :| CorruptAt(step, buf, j, c);
    var d := Cumulate(step, buf);
    assert [chunk, next][1..] == [next];
    assert FeedAll(step, cumulation, [chunk, next]) == [d] + FeedAll(step, d.rest, [next]);
    assert FeedAll(step, d.rest, [next])[0] == Cumulate(step, d.rest + next);
  }
}
