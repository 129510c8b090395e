/** The reading side of the Native format: an adapter that pulls blocks from
    the Native block codec and hands them to the pipeline as chunks. The codec
    is modelled by the calls made on it (the event log `trace`) and by the
    blocks its `read` will return (the queue `supply`). A block without
    columns is the codec's end of data. */
module NativeInput {
  import opened Wrappers
  import opened Blocks
  import opened Traces

  /** One call on the input codec; `Read` records what the codec returned. */
  datatype InputEvent = ReadPrefix | Read(got: Block) | ReadSuffix | Reset

  /** What the codec's next `read` returns: the empty block, which ends the
      data, once the queue is exhausted. */
  function Next(supply: seq<Block>): Block {
    if supply == [] then [] else supply[0]
  }

  /** A block tests false (end of data) when it has no columns. */
  predicate EndOfData(b: Block) {
    |b| == 0
  }

  /** The event of a read that found the end of data. */
  predicate ReadEnd(e: InputEvent) {
    e.Read? && EndOfData(e.got)
  }

  function Rest(supply: seq<Block>): seq<Block> {
    if supply == [] then [] else supply[1..]
  }

  /** The open pass: the events since the last Reset. */
  function CurrentPass(t: seq<InputEvent>): (p: seq<InputEvent>)
    ensures |p| <= |t| && Reset !in p
  {
    if t == [] then []
    else if t[|t| - 1] == Reset then []
    else CurrentPass(t[..|t| - 1]) + [t[|t| - 1]]
  }

  /** Whether the codec call `e` may follow the log `t`: a ReadPrefix only
      opens a pass, a read or a ReadSuffix only continues one, and a
      ReadSuffix comes once per pass, right after a read that found the end
      of data.
      A Reset may come at any time. */
  predicate Allowed(t: seq<InputEvent>, e: InputEvent) {
    var p := CurrentPass(t);
    (e == ReadPrefix ==> p == []) &&
    (e.Read? ==> p != []) &&
    (e == ReadSuffix ==> p != [] && ReadSuffix !in p && ReadEnd(p[|p| - 1]))
  }

  /** The log is framed: every call was allowed by the calls before it. */
  predicate WellFramed(t: seq<InputEvent>) {
    t == [] || (WellFramed(t[..|t| - 1]) && Allowed(t[..|t| - 1], t[|t| - 1]))
  }

  lemma WellFramedSnoc(t: seq<InputEvent>, e: InputEvent)
    ensures WellFramed(t + [e]) <==> WellFramed(t) && Allowed(t, e)
    ensures CurrentPass(t + [e]) == if e == Reset then [] else CurrentPass(t) + [e]
  {
    assert (t + [e])[..|t|] == t;
  }

  /** The log cut at every Reset into passes; the last pass is the open one. */
  function Passes(t: seq<InputEvent>): (ps: seq<seq<InputEvent>>)
    ensures |ps| == Count(t, Reset) + 1
    ensures ps[|ps| - 1] == CurrentPass(t)
  {
    if t == [] then [[]]
    else
      var ps := Passes(t[..|t| - 1]);
      if t[|t| - 1] == Reset then ps + [[]]
      else ps[..|ps| - 1] + [ps[|ps| - 1] + [t[|t| - 1]]]
  }

  /** A pass is framed: it is empty, or it opens with the one ReadPrefix of
      the pass, holds at most one ReadSuffix, and that ReadSuffix comes right
      after a read that found the end of data. */
  predicate PassOk(p: seq<InputEvent>) {
    p == [] ||
    (p[0] == ReadPrefix && Count(p, ReadPrefix) == 1 && Count(p, ReadSuffix) <= 1 &&
     forall i :: 0 <= i < |p| && p[i] == ReadSuffix ==> 0 < i && ReadEnd(p[i - 1]))
  }

  /** An allowed event keeps the open pass framed. */
  lemma PassOkSnoc(t: seq<InputEvent>, e: InputEvent)
    requires PassOk(CurrentPass(t)) && Allowed(t, e) && e != Reset
    ensures PassOk(CurrentPass(t) + [e])
  {
    var p := CurrentPass(t);
    CountSnoc(p, e, ReadPrefix);
    CountSnoc(p, e, ReadSuffix);
    CountZero(p, ReadSuffix);
    if p == [] {
      assert p + [e] == [ReadPrefix];
    } else {
      assert (p + [e])[0] == p[0];
    }
  }

  lemma PassesSnoc(t: seq<InputEvent>, e: InputEvent)
    ensures Passes(t + [e]) == if e == Reset then Passes(t) + [[]]
                               else Passes(t)[..|Passes(t)| - 1] + [CurrentPass(t) + [e]]
  {
    assert (t + [e])[..|t|] == t;
  }

  /** The passes put back together, with a Reset between neighbours. */
  function Join(ps: seq<seq<InputEvent>>): seq<InputEvent>
    requires ps != []
  {
    if |ps| == 1 then ps[0] else ps[0] + [Reset] + Join(ps[1..])
  }

  lemma {:induction false} JoinSnoc(ps: seq<seq<InputEvent>>, p: seq<InputEvent>)
    requires ps != []
    ensures Join(ps + [p]) == Join(ps) + [Reset] + p
  {
    assert (ps + [p])[0] == ps[0];
    if |ps| == 1 {
      assert (ps + [p])[1..] == [p];
    } else {
      assert (ps + [p])[1..] == ps[1..] + [p];
      JoinSnoc(ps[1..], p);
    }
  }

  /** No pass holds a Reset: the passes are cut at every Reset. */
  lemma {:induction false} PassesHaveNoReset(t: seq<InputEvent>)
    ensures forall k :: 0 <= k < |Passes(t)| ==> Reset !in Passes(t)[k]
  {
    if t != [] {
      var u, e := t[..|t| - 1], t[|t| - 1];
      assert t == u + [e];
      PassesHaveNoReset(u);
      PassesSnoc(u, e);
      var ps, qs := Passes(u), Passes(t);
      forall k | 0 <= k < |qs| ensures Reset !in qs[k] {
        if k < |ps| - 1 || (e == Reset && k < |ps|) {
          assert qs[k] == ps[k];
        }
      }
    }
  }

  /** Cutting the log into passes loses nothing: joining the passes at
      Resets gives back the log. */
  lemma {:induction false} PassesJoin(t: seq<InputEvent>)
    ensures Join(Passes(t)) == t
  {
    if t != [] {
      var u, e := t[..|t| - 1], t[|t| - 1];
      assert t == u + [e];
      PassesJoin(u);
      PassesSnoc(u, e);
      var ps := Passes(u);
      if e == Reset {
        JoinSnoc(ps, []);
      } else if |ps| > 1 {
        var q, last := ps[..|ps| - 1], ps[|ps| - 1];
        assert ps == q + [last];
        JoinSnoc(q, last);
        JoinSnoc(q, last + [e]);
      }
    }
  }

  /** In a framed log every pass is framed: the prefix is read first and
      once per pass, the suffix at most once and only at end of data. */
  lemma {:induction false} EveryPassFramed(t: seq<InputEvent>)
    requires WellFramed(t)
    ensures forall k :: 0 <= k < |Passes(t)| ==> PassOk(Passes(t)[k])
  {
    if t != [] {
      var u, e := t[..|t| - 1], t[|t| - 1];
      assert t == u + [e];
      EveryPassFramed(u);
      PassesSnoc(u, e);
      var ps, qs := Passes(u), Passes(t);
      if e != Reset {
        PassOkSnoc(u, e);
      }
      forall k | 0 <= k < |qs| ensures PassOk(qs[k]) {
        if k < |ps| - 1 || (e == Reset && k < |ps|) {
          assert qs[k] == ps[k];
        }
      }
    }
  }

  /** A non-empty log whose open pass is empty ends with a Reset. */
  lemma EmptyPassFollowsReset(u: seq<InputEvent>)
    requires u != [] && CurrentPass(u) == []
    ensures u[|u| - 1] == Reset
  {
  }

  /** Between any two ReadPrefix events of a framed log lies a Reset:
      the prefix is read at most once per pass. */
  lemma {:induction false} PrefixesSeparatedByReset(t: seq<InputEvent>, i: nat, j: nat)
    requires WellFramed(t)
    requires i < j < |t| && t[i] == ReadPrefix && t[j] == ReadPrefix
    ensures Reset in t[i + 1..j]
  {
    var u := t[..|t| - 1];
    if j < |t| - 1 {
      PrefixesSeparatedByReset(u, i, j);
      assert u[i + 1..j] == t[i + 1..j];
    } else {
      EmptyPassFollowsReset(u);
      assert t[i + 1..j][j - 1 - (i + 1)] == t[j - 1];
    }
  }

  /** What the adapter can know of its log without keeping it: whether the
      log is framed so far, whether the open pass has read the prefix and the
      suffix, and whether its last call was a read that found the end of data. */
  datatype PassState = PassState(ok: bool, prefixRead: bool, suffixRead: bool, atEnd: bool)

  /** The effect of one codec call on the pass state; a call the log does
      not allow clears `ok`. */
  function Step(s: PassState, e: InputEvent): PassState {
    match e
    case ReadPrefix => PassState(s.ok && !s.prefixRead, true, s.suffixRead, false)
    case Read(got) => PassState(s.ok && s.prefixRead, s.prefixRead, s.suffixRead, EndOfData(got))
    case ReadSuffix => PassState(s.ok && s.prefixRead && !s.suffixRead && s.atEnd, s.prefixRead, true, false)
    case Reset => PassState(s.ok, false, false, false)
  }

  /** The pass state after the log `t`. */
  function Run(t: seq<InputEvent>): PassState {
    if t == [] then PassState(true, false, false, false)
    else Step(Run(t[..|t| - 1]), t[|t| - 1])
  }

  lemma RunSnoc(t: seq<InputEvent>, e: InputEvent)
    ensures Run(t + [e]) == Step(Run(t), e)
  {
    assert (t + [e])[..|t|] == t;
  }

  /** The pass state is an exact summary of the log: it accepts exactly the
      framed logs, and then its flags say whether the open pass has begun,
      holds its ReadSuffix, and ends with a read that found the end of data. */
  lemma {:induction false} RunIsFramed(t: seq<InputEvent>)
    ensures Run(t).ok <==> WellFramed(t)
    ensures Run(t).ok ==> var p := CurrentPass(t);
      (Run(t).prefixRead <==> p != []) &&
      (Run(t).suffixRead <==> ReadSuffix in p) &&
      (Run(t).atEnd <==> p != [] && ReadEnd(p[|p| - 1]))
  {
    if t != [] {
      var u, e := t[..|t| - 1], t[|t| - 1];
      assert t == u + [e];
      RunIsFramed(u);
      WellFramedSnoc(u, e);
    }
  }

  /** The prefix read by `generate`: none once this pass has read it. */
  function PrefixUnless(read: bool): seq<InputEvent> {
    if read then [] else [ReadPrefix]
  }

  /** The suffix read by `generate` after a read returned `got`: only at the
      end of data, and only if this pass has not read it yet. */
  function SuffixUnless(read: bool, got: Block): seq<InputEvent> {
    if EndOfData(got) && !read then [ReadSuffix] else []
  }

  /** The input adapter (NativeInputFormatFromNativeBlockInputStream). */
  class NativeInputFormat {
    /** Header of the output port; blocks must match it. */
    const header: Block
    var readPrefix: bool
    var readSuffix: bool
    /** Blocks the codec's next reads return, in order. */
    var supply: seq<Block>
    /** The calls made on the codec so far. */
    var trace: seq<InputEvent>

    /** The log is framed and the flags say where the open pass stands
        (by RunIsFramed: the prefix is read iff the pass has begun, the
        suffix iff the pass holds its ReadSuffix). */
    ghost predicate Valid()
      reads this
    {
      Run(trace).ok && Run(trace).prefixRead == readPrefix && Run(trace).suffixRead == readSuffix
    }

    constructor (header: Block, supply: seq<Block>)
      ensures Valid()
      ensures this.header == header && this.supply == supply
      ensures !readPrefix && !readSuffix && trace == []
    {
      this.header := header;
      this.supply := supply;
      readPrefix, readSuffix := false, false;
      trace := [];
    }

    /** Forgets that prefix and suffix were read, so the next pass reads them again. */
    method ResetParser()
      requires Valid()
      modifies this`readPrefix, this`readSuffix, this`trace
      ensures Valid()
      ensures !readPrefix && !readSuffix
      ensures trace == old(trace) + [Reset]
    {
      ghost var s := Run(trace);
      RunSnoc(trace, Reset);
      trace := trace + [Reset];
      assert Run(trace) == PassState(s.ok, false, false, false);
      readPrefix := false;
      readSuffix := false;
    }

    /** Produces the next chunk: reads the prefix if this pass has not, then
        one block. A block without columns is the end of data and gives the
        empty chunk, reading the suffix the first time only; any other block
        gives a chunk or a structural error. */
    method Generate() returns (r: Result<Chunk, FormatError>)
      requires Valid()
      modifies this`readPrefix, this`readSuffix, this`supply, this`trace
      ensures Valid()
      ensures readPrefix
      ensures readSuffix == (old(readSuffix) || EndOfData(Next(old(supply))))
      ensures supply == Rest(old(supply))
      ensures trace == old(trace) + PrefixUnless(old(readPrefix)) + [Read(Next(old(supply)))]
                       + SuffixUnless(old(readSuffix), Next(old(supply)))
      ensures EndOfData(Next(old(supply))) ==> r == Ok(EmptyChunk)
      ensures !EndOfData(Next(old(supply))) ==> r == BlockToChunk(header, Next(old(supply)))
    {
      if !readPrefix {
        RunSnoc(trace, ReadPrefix);
        trace := trace + [ReadPrefix];
        readPrefix := true;
      }

      var block := Next(supply);
      supply := Rest(supply);
      RunSnoc(trace, Read(block));
      trace := trace + [Read(block)];

      if EndOfData(block) {
        if !readSuffix {
          RunSnoc(trace, ReadSuffix);
          trace := trace + [ReadSuffix];
          readSuffix := true;
        }
        r := Ok(EmptyChunk);
      } else {
        r := BlockToChunk(header, block);
      }
    }
  }

  /** A block without columns and then an exhausted queue: both reads give
      the empty chunk, only the first reads the suffix; after a reset the
      next read frames a new pass. */
  method EndOfDataAndReset(header: Block) returns (r1: Result<Chunk, FormatError>, r2: Result<Chunk, FormatError>, r3: Result<Chunk, FormatError>, events: seq<InputEvent>)
    ensures r1 == r2 == r3 == Ok(EmptyChunk)
    ensures events == [ReadPrefix, Read([]), ReadSuffix, Read([]), Reset, ReadPrefix, Read([]), ReadSuffix]
  {
    var f := new NativeInputFormat(header, [[]]);
    r1 := f.Generate();
    r2 := f.Generate();
    f.ResetParser();
    r3 := f.Generate();
    events := f.trace;
  }

  /** A block that does not match the header is an error; a matching block
      read after it becomes a chunk with its columns and row count. The
      prefix is read once for both. */
  method MismatchThenBlock(header: Block, bad: Block, good: Block) returns (r1: Result<Chunk, FormatError>, r2: Result<Chunk, FormatError>, events: seq<InputEvent>)
    requires bad != [] && !EqualStructure(header, bad)
    requires good != [] && EqualStructure(header, good) && HasUniformRows(good)
    ensures r1 == Err(StructureMismatch)
    ensures r2.Ok? && r2.value.columns == Columns(good) && r2.value.numRows == Rows(good)
    ensures events == [ReadPrefix, Read(bad), Read(good)]
  {
    var f := new NativeInputFormat(header, [bad, good]);
    r1 := f.Generate();
    r2 := f.Generate();
    events := f.trace;
  }
}
