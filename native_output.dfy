/** The writing side of the Native format: an adapter that takes chunks from
    the main, totals and extremes ports, rebuilds blocks from the ports'
    headers and hands them to the Native block codec, framing the stream with
    one prefix and one suffix. With the statistics trailer switched on it
    accumulates progress and ends every finalization with a statistics block;
    switched off, it forwards progress to the codec. The codec is modelled by
    the calls made on it (the event log `trace`). */
module NativeOutput {
  import opened Blocks
  import opened Traces

  const TWO_TO_THE_64: int := 0x1_0000_0000_0000_0000

  /** An unsigned 64-bit integer, the width of the source's size_t counters. */
  type u64 = x: int | 0 <= x < TWO_TO_THE_64

  /** The read counters of a progress report. */
  datatype Progress = Progress(readRows: u64, readBytes: u64)

  /** One call on the output codec. */
  datatype OutputEvent =
    | WritePrefix
    | Write(block: Block)
    | SetTotals(block: Block)
    | SetExtremes(block: Block)
    | WriteSuffix
    | ForwardProgress(progress: Progress)

  /** Unsigned 64-bit addition, wrapping around like the source's size_t counters. */
  function Add64(a: u64, b: u64): (r: u64)
    ensures r == (a + b) % TWO_TO_THE_64
    ensures a + b < TWO_TO_THE_64 ==> a <= r
  {
    if a + b < TWO_TO_THE_64 then a + b else a + b - TWO_TO_THE_64
  }

  /** Adds a report to the accumulated progress, counter by counter. */
  function Increment(total: Progress, delta: Progress): Progress {
    Progress(Add64(total.readRows, delta.readRows), Add64(total.readBytes, delta.readBytes))
  }

  /** Progress accumulated from zero over a sequence of reports. */
  function Accumulated(reports: seq<Progress>): Progress {
    if reports == [] then Progress(0, 0)
    else Increment(Accumulated(reports[..|reports| - 1]), reports[|reports| - 1])
  }

  function TotalRows(reports: seq<Progress>): nat {
    if reports == [] then 0 else TotalRows(reports[..|reports| - 1]) + reports[|reports| - 1].readRows
  }

  function TotalBytes(reports: seq<Progress>): nat {
    if reports == [] then 0 else TotalBytes(reports[..|reports| - 1]) + reports[|reports| - 1].readBytes
  }

  lemma ModAdd(x: nat, y: nat)
    ensures (x % TWO_TO_THE_64 + y) % TWO_TO_THE_64 == (x + y) % TWO_TO_THE_64
  {
    var q := x / TWO_TO_THE_64;
    assert x == q * TWO_TO_THE_64 + x % TWO_TO_THE_64;
    assert x + y == q * TWO_TO_THE_64 + (x % TWO_TO_THE_64 + y);
  }

  /** The accumulated counters are the true sums of the reports, modulo 2^64. */
  lemma {:induction false} AccumulatedIsTotal(reports: seq<Progress>)
    ensures Accumulated(reports) == Progress(TotalRows(reports) % TWO_TO_THE_64, TotalBytes(reports) % TWO_TO_THE_64)
  {
    if reports != [] {
      var init, last := reports[..|reports| - 1], reports[|reports| - 1];
      AccumulatedIsTotal(init);
      ModAdd(TotalRows(init), last.readRows);
      ModAdd(TotalBytes(init), last.readBytes);
    }
  }

  lemma {:induction false} TotalsOfConcat(a: seq<Progress>, b: seq<Progress>)
    ensures TotalRows(a + b) == TotalRows(a) + TotalRows(b)
    ensures TotalBytes(a + b) == TotalBytes(a) + TotalBytes(b)
  {
    if b != [] {
      assert (a + b)[..|a + b| - 1] == a + b[..|b| - 1];
      assert (a + b)[|a + b| - 1] == b[|b| - 1];
      TotalsOfConcat(a, b[..|b| - 1]);
      assert TotalRows(a + b) == TotalRows(a + b[..|b| - 1]) + b[|b| - 1].readRows;
      assert TotalBytes(a + b) == TotalBytes(a + b[..|b| - 1]) + b[|b| - 1].readBytes;
    } else {
      assert a + b == a;
    }
  }

  /** While the true sums stay below 2^64, later reports never decrease the
      accumulated counters. */
  lemma AccumulatedNonDecreasing(a: seq<Progress>, b: seq<Progress>)
    requires TotalRows(a + b) < TWO_TO_THE_64 && TotalBytes(a + b) < TWO_TO_THE_64
    ensures Accumulated(a).readRows <= Accumulated(a + b).readRows
    ensures Accumulated(a).readBytes <= Accumulated(a + b).readBytes
  {
    TotalsOfConcat(a, b);
    AccumulatedIsTotal(a);
    AccumulatedIsTotal(a + b);
    SmallModulo(TotalRows(a));
    SmallModulo(TotalBytes(a));
    SmallModulo(TotalRows(a + b));
    SmallModulo(TotalBytes(a + b));
  }

  lemma SmallModulo(x: nat)
    requires x < TWO_TO_THE_64
    ensures x % TWO_TO_THE_64 == x
  {
  }

  /** The progress reports forwarded to the codec, in order. */
  function Forwarded(t: seq<OutputEvent>): (ps: seq<Progress>)
    ensures |ps| <= |t|
  {
    if t == [] then []
    else Forwarded(t[..|t| - 1]) + (if t[|t| - 1].ForwardProgress? then [t[|t| - 1].progress] else [])
  }

  lemma ForwardedSnoc(t: seq<OutputEvent>, e: OutputEvent)
    ensures Forwarded(t + [e]) == Forwarded(t) + (if e.ForwardProgress? then [e.progress] else [])
  {
    assert (t + [e])[..|t|] == t;
  }

  /** The statistics trailer: one row holding the marker, the accumulated
      read counters and the elapsed time. */
  function StatisticsTrailer(progress: Progress, elapsed: bv64): (b: Block)
    ensures |b| == 4 && Rows(b) == 1 && HasUniformRows(b)
    ensures b[0].name == "fl.statistics" && b[1].name == "rows_read" && b[2].name == "bytes_read" && b[3].name == "elapsed"
    ensures b[0].dataType == UInt8 && b[1].dataType == UInt64 && b[2].dataType == UInt64 && b[3].dataType == Float64
    ensures b[0].column == [UInt(1)] && b[1].column == [UInt(progress.readRows)]
    ensures b[2].column == [UInt(progress.readBytes)] && b[3].column == [Float(elapsed)]
  {
    [ ColumnWithTypeAndName([UInt(1)], UInt8, "fl.statistics"),
      ColumnWithTypeAndName([UInt(progress.readRows)], UInt64, "rows_read"),
      ColumnWithTypeAndName([UInt(progress.readBytes)], UInt64, "bytes_read"),
      ColumnWithTypeAndName([Float(elapsed)], Float64, "elapsed") ]
  }

  /** The prefix write that `writePrefixIfNot` makes unless the prefix is already written. */
  function PrefixUnless(written: bool): seq<OutputEvent> {
    if written then [] else [WritePrefix]
  }

  function SuffixUnless(written: bool): seq<OutputEvent> {
    if written then [] else [WriteSuffix]
  }

  /** Events of the framed stream that must come after the prefix. */
  predicate NeedsPrefix(e: OutputEvent) {
    e.Write? || e.SetTotals? || e.SetExtremes? || e.WriteSuffix?
  }

  /** Whether the codec call `e` may follow the stream `t`: the prefix only
      once, the suffix only once, and block writes, totals, extremes and the
      suffix only after the prefix. Forwarded progress may come at any time. */
  predicate Allowed(t: seq<OutputEvent>, e: OutputEvent) {
    (e == WritePrefix ==> WritePrefix !in t) &&
    (e == WriteSuffix ==> WriteSuffix !in t) &&
    (NeedsPrefix(e) ==> WritePrefix in t)
  }

  /** The stream is framed: every call was allowed by the calls before it. */
  predicate Framed(t: seq<OutputEvent>) {
    t == [] || (Framed(t[..|t| - 1]) && Allowed(t[..|t| - 1], t[|t| - 1]))
  }

  lemma FramedSnoc(t: seq<OutputEvent>, e: OutputEvent)
    ensures Framed(t + [e]) <==> Framed(t) && Allowed(t, e)
  {
    assert (t + [e])[..|t|] == t;
  }

  /** A framed stream holds at most one prefix and at most one suffix, and
      every block write, totals, extremes and the suffix come after a prefix. */
  lemma {:induction false} FramedMeans(t: seq<OutputEvent>)
    requires Framed(t)
    ensures Count(t, WritePrefix) <= 1 && Count(t, WriteSuffix) <= 1
    ensures forall i :: 0 <= i < |t| && NeedsPrefix(t[i]) ==> WritePrefix in t[..i]
  {
    if t != [] {
      var u, e := t[..|t| - 1], t[|t| - 1];
      assert t == u + [e];
      FramedMeans(u);
      CountSnoc(u, e, WritePrefix);
      CountSnoc(u, e, WriteSuffix);
      CountZero(u, WritePrefix);
      CountZero(u, WriteSuffix);
      forall i | 0 <= i < |t| && NeedsPrefix(t[i]) ensures WritePrefix in t[..i] {
        if i < |u| {
          assert t[..i] == u[..i];
        } else {
          assert t[..i] == u;
        }
      }
    }
  }

  /** Once a framed stream holds both a prefix and a suffix, it holds exactly
      one of each, the prefix first. */
  lemma FramedComplete(t: seq<OutputEvent>)
    requires Framed(t) && WritePrefix in t && WriteSuffix in t
    ensures Count(t, WritePrefix) == 1 && Count(t, WriteSuffix) == 1
    ensures IndexOf(t, WritePrefix) < IndexOf(t, WriteSuffix)
  {
    FramedMeans(t);
    CountZero(t, WritePrefix);
    CountZero(t, WriteSuffix);
    var s := IndexOf(t, WriteSuffix);
    assert WritePrefix in t[..s];
    var j :| 0 <= j < s && t[j] == WritePrefix;
    assert IndexOf(t, WritePrefix) <= j;
  }

  /** What the adapter can know of its stream without keeping it: whether
      the stream is framed so far, whether the prefix and the suffix have been
      written, and the progress forwarded to the codec, in order. */
  datatype StreamState = StreamState(ok: bool, prefixSeen: bool, suffixSeen: bool, forwarded: seq<Progress>)

  /** The effect of one codec call on the stream state; a call the stream
      does not allow clears `ok`. */
  function Step(s: StreamState, e: OutputEvent): StreamState {
    match e
    case WritePrefix => s.(ok := s.ok && !s.prefixSeen, prefixSeen := true)
    case WriteSuffix => s.(ok := s.ok && s.prefixSeen && !s.suffixSeen, suffixSeen := true)
    case ForwardProgress(p) => s.(forwarded := s.forwarded + [p])
    case _ => s.(ok := s.ok && s.prefixSeen)
  }

  /** The stream state after the stream `t`. */
  function Run(t: seq<OutputEvent>): StreamState {
    if t == [] then StreamState(true, false, false, [])
    else Step(Run(t[..|t| - 1]), t[|t| - 1])
  }

  lemma RunSnoc(t: seq<OutputEvent>, e: OutputEvent)
    ensures Run(t + [e]) == Step(Run(t), e)
  {
    assert (t + [e])[..|t|] == t;
  }

  /** The stream state is an exact summary of the stream: it accepts exactly
      the framed streams, records whether a prefix and a suffix are in it, and
      holds the forwarded progress. */
  lemma {:induction false} RunIsFramed(t: seq<OutputEvent>)
    ensures Run(t).ok <==> Framed(t)
    ensures Run(t).prefixSeen <==> WritePrefix in t
    ensures Run(t).suffixSeen <==> WriteSuffix in t
    ensures Run(t).forwarded == Forwarded(t)
  {
    if t != [] {
      var u, e := t[..|t| - 1], t[|t| - 1];
      assert t == u + [e];
      RunIsFramed(u);
      FramedSnoc(u, e);
      ForwardedSnoc(u, e);
    }
  }

  /** Each progress report was either accumulated (trailer on) or forwarded
      to the codec (trailer off), never both. */
  predicate ProgressKept(forwarded: seq<Progress>, trailerEnabled: bool, myProgress: Progress, received: seq<Progress>) {
    (trailerEnabled ==> myProgress == Accumulated(received) && forwarded == []) &&
    (!trailerEnabled ==> myProgress == Progress(0, 0) && forwarded == received)
  }

  /** The output adapter (NativeOutputFormatFromNativeBlockOutputStream). */
  class NativeOutputFormat {
    /** Headers of the main, totals and extremes input ports. */
    const mainHeader: Block
    const totalsHeader: Block
    const extremesHeader: Block
    /** Whether the statistics trailer is built in. */
    const trailerEnabled: bool
    var prefixWritten: bool
    var suffixWritten: bool
    /** Progress accumulated for the trailer; stays zero without it. */
    var myProgress: Progress
    /** Every progress report delivered to the adapter, in order. */
    ghost var received: seq<Progress>
    /** The calls made on the codec so far. */
    var trace: seq<OutputEvent>

    /** The stream is framed, the flags say whether prefix and suffix are
        written, and progress is kept (by RunIsFramed, these are facts about
        `trace` itself). */
    ghost predicate Valid()
      reads this
    {
      var s := Run(trace);
      s.ok && s.prefixSeen == prefixWritten && s.suffixSeen == suffixWritten &&
      ProgressKept(s.forwarded, trailerEnabled, myProgress, received)
    }

    constructor (mainHeader: Block, totalsHeader: Block, extremesHeader: Block, trailerEnabled: bool)
      ensures Valid()
      ensures this.mainHeader == mainHeader && this.totalsHeader == totalsHeader
      ensures this.extremesHeader == extremesHeader && this.trailerEnabled == trailerEnabled
      ensures !prefixWritten && !suffixWritten
      ensures myProgress == Progress(0, 0) && received == [] && trace == []
    {
      this.mainHeader := mainHeader;
      this.totalsHeader := totalsHeader;
      this.extremesHeader := extremesHeader;
      this.trailerEnabled := trailerEnabled;
      prefixWritten, suffixWritten := false, false;
      myProgress := Progress(0, 0);
      received := [];
      trace := [];
    }

    /** Appends one codec call that the stream allows. */
    method Emit(e: OutputEvent)
      requires Step(Run(trace), e).ok
      modifies this`trace
      ensures trace == old(trace) + [e]
      ensures Run(trace) == Step(Run(old(trace)), e)
    {
      RunSnoc(trace, e);
      trace := trace + [e];
    }

    /** A progress report: accumulated with the trailer on, forwarded to the
        codec with it off. */
    method OnProgress(progress: Progress)
      requires Valid()
      modifies this`myProgress, this`received, this`trace
      ensures Valid()
      ensures received == old(received) + [progress]
      ensures trailerEnabled ==> myProgress == Increment(old(myProgress), progress) && trace == old(trace)
      ensures !trailerEnabled ==> myProgress == old(myProgress) && trace == old(trace) + [ForwardProgress(progress)]
    {
      received := received + [progress];
      if trailerEnabled {
        assert received[..|received| - 1] == old(received);
        myProgress := Increment(myProgress, progress);
      } else {
        Emit(ForwardProgress(progress));
      }
    }

    method WritePrefixIfNot()
      requires Valid()
      modifies this`prefixWritten, this`trace
      ensures Valid() && prefixWritten
      ensures trace == old(trace) + PrefixUnless(old(prefixWritten))
    {
      if !prefixWritten {
        Emit(WritePrefix);
      }
      prefixWritten := true;
    }

    method WriteSuffixIfNot()
      requires Valid() && prefixWritten
      modifies this`suffixWritten, this`trace
      ensures Valid() && suffixWritten
      ensures trace == old(trace) + SuffixUnless(old(suffixWritten))
    {
      if !suffixWritten {
        Emit(WriteSuffix);
      }
      suffixWritten := true;
    }

    /** Writes the statistics trailer from the accumulated progress. */
    method WriteLastSuffix(elapsed: bv64)
      requires Valid() && prefixWritten && trailerEnabled
      modifies this`trace
      ensures Valid()
      ensures trace == old(trace) + [Write(StatisticsTrailer(Accumulated(received), elapsed))]
    {
      Emit(Write(StatisticsTrailer(myProgress, elapsed)));
    }

    /** A main-port chunk: the prefix is ensured, and a non-empty chunk is
        written as a block of the main header. */
    method Consume(chunk: Chunk)
      requires Valid()
      requires IsEmpty(chunk) || |chunk.columns| >= |mainHeader|
      modifies this`prefixWritten, this`trace
      ensures Valid() && prefixWritten
      ensures trace == old(trace) + PrefixUnless(old(prefixWritten))
                       + (if IsEmpty(chunk) then [] else [Write(WithColumns(mainHeader, chunk.columns))])
    {
      WritePrefixIfNot();
      if !IsEmpty(chunk) {
        Emit(Write(WithColumns(mainHeader, chunk.columns)));
      }
    }

    /** A totals chunk: the prefix is ensured and the chunk, empty or not,
        goes to the codec's totals as a block of the totals header. */
    method ConsumeTotals(chunk: Chunk)
      requires Valid()
      requires |chunk.columns| >= |totalsHeader|
      modifies this`prefixWritten, this`trace
      ensures Valid() && prefixWritten
      ensures trace == old(trace) + PrefixUnless(old(prefixWritten))
                       + [SetTotals(WithColumns(totalsHeader, chunk.columns))]
    {
      WritePrefixIfNot();
      Emit(SetTotals(WithColumns(totalsHeader, chunk.columns)));
    }

    /** An extremes chunk, handled like totals on the extremes channel. */
    method ConsumeExtremes(chunk: Chunk)
      requires Valid()
      requires |chunk.columns| >= |extremesHeader|
      modifies this`prefixWritten, this`trace
      ensures Valid() && prefixWritten
      ensures trace == old(trace) + PrefixUnless(old(prefixWritten))
                       + [SetExtremes(WithColumns(extremesHeader, chunk.columns))]
    {
      WritePrefixIfNot();
      Emit(SetExtremes(WithColumns(extremesHeader, chunk.columns)));
    }

    /** Ends the stream: prefix and suffix are ensured (only the first call
        writes them), then, with the trailer on, the statistics block is
        written, on every call. Afterwards the stream is framed and holds a
        prefix and a suffix, so by FramedComplete exactly one of each, the
        prefix first. */
    method Finalize(elapsed: bv64)
      requires Valid()
      modifies this`prefixWritten, this`suffixWritten, this`trace
      ensures Valid() && prefixWritten && suffixWritten
      ensures trace == old(trace)
                       + PrefixUnless(old(prefixWritten))
                       + SuffixUnless(old(suffixWritten))
                       + (if trailerEnabled then [Write(StatisticsTrailer(Accumulated(received), elapsed))] else [])
    {
      WritePrefixIfNot();
      WriteSuffixIfNot();
      if trailerEnabled {
        WriteLastSuffix(elapsed);
      }
    }
  }

  /** An empty result, finalized twice: prefix and suffix once, the trailer
      (with zero counters) after each finalization. */
  method EmptyResultFinalizedTwice(header: Block, trailerEnabled: bool, elapsed: bv64) returns (once: seq<OutputEvent>, twice: seq<OutputEvent>)
    ensures var trailer := if trailerEnabled then [Write(StatisticsTrailer(Progress(0, 0), elapsed))] else [];
            once == [WritePrefix, WriteSuffix] + trailer && twice == once + trailer
  {
    var f := new NativeOutputFormat(header, header, header, trailerEnabled);
    f.Finalize(elapsed);
    once := f.trace;
    f.Finalize(elapsed);
    twice := f.trace;
  }

  /** With the trailer on, two progress reports are summed into the
      trailer's counters and nothing is forwarded. */
  method ProgressSummedIntoTrailer(header: Block, p: Progress, q: Progress, elapsed: bv64) returns (events: seq<OutputEvent>)
    requires p.readRows + q.readRows < TWO_TO_THE_64 && p.readBytes + q.readBytes < TWO_TO_THE_64
    ensures events == [WritePrefix, WriteSuffix,
                       Write(StatisticsTrailer(Progress(p.readRows + q.readRows, p.readBytes + q.readBytes), elapsed))]
  {
    var f := new NativeOutputFormat(header, header, header, true);
    f.OnProgress(p);
    f.OnProgress(q);
    assert [p, q][..1] == [p] && [p][..0] == [];
    assert f.myProgress == Progress(p.readRows + q.readRows, p.readBytes + q.readBytes);
    f.Finalize(elapsed);
    events := f.trace;
  }

  /** With the trailer off, progress reports are forwarded as they came,
      even ahead of the prefix. */
  method ProgressForwarded(header: Block, p: Progress, q: Progress, elapsed: bv64) returns (events: seq<OutputEvent>)
    ensures events == [ForwardProgress(p), ForwardProgress(q), WritePrefix, WriteSuffix]
  {
    var f := new NativeOutputFormat(header, header, header, false);
    f.OnProgress(p);
    f.OnProgress(q);
    f.Finalize(elapsed);
    events := f.trace;
  }

  /** Data on every channel: the prefix comes first whichever channel is
      used first, an empty main chunk writes nothing, and the side channels
      never reach the main write path. */
  method ChannelsAfterPrefix(main: Block, totals: Block, extremes: Block, rows: Chunk, t: Chunk, x: Chunk) returns (events: seq<OutputEvent>)
    requires !IsEmpty(rows) && |rows.columns| >= |main|
    requires |t.columns| >= |totals| && |x.columns| >= |extremes|
    ensures events == [WritePrefix, SetTotals(WithColumns(totals, t.columns)), Write(WithColumns(main, rows.columns)),
                       SetExtremes(WithColumns(extremes, x.columns))]
  {
    var f := new NativeOutputFormat(main, totals, extremes, false);
    f.ConsumeTotals(t);
    assert f.trace == [WritePrefix, SetTotals(WithColumns(totals, t.columns))];
    f.Consume(EmptyChunk);
    f.Consume(rows);
    assert f.trace == [WritePrefix, SetTotals(WithColumns(totals, t.columns)), Write(WithColumns(main, rows.columns))];
    f.ConsumeExtremes(x);
    events := f.trace;
  }
}
