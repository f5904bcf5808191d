/** The RDB parser gives the same result however the stream was cut into chunks. */
module RdbChunks {
  import opened Bytes
  import opened RdbString
  import opened RdbValue
  import opened RdbParser

  // ----- Each transition is stable under appending -----

  /** `r` is the transition `q` with `more` behind the buffer. */
  ghost predicate Carries(r: StepResult, q: StepResult, more: seq<byte>) {
    match q
    case Progress(s, cmds) => r == Progress(Extend(s, more), cmds)
    case Failed(e) => r == Failed(e)
    case Blocked => true
  }

  lemma MagicStable(s: State, more: seq<byte>)
    ensures Carries(StepMagic(Extend(s, more)), StepMagic(s), more)
  {
    if |s.buffer| >= 9 {
      SliceOfAppend(s.buffer, more, 0, 9);
    }
  }

  lemma ResizeDbStable(s: State, more: seq<byte>)
    ensures Carries(StepResizeDb(Extend(s, more)), StepResizeDb(s), more)
  {
    var first := PeekLength(s.buffer);
    if !first.NeedMore? {
      LengthStable(s.buffer, more);
      if first.Ready? {
        var second := PeekLengthAt(s.buffer, first.value.octets);
        if !second.NeedMore? {
          LengthAtStable(s.buffer, first.value.octets, more);
          if second.Ready? {
            SliceOfAppend(s.buffer, more, 0, first.value.octets + second.value.octets);
          }
        }
      }
    }
  }

  lemma AuxStable(s: State, more: seq<byte>)
    ensures Carries(StepAux(Extend(s, more)), StepAux(s), more)
  {
    var mid := StringEnd(s.buffer, 0);
    if !mid.NeedMore? {
      StringEndStable(s.buffer, 0, more);
      if mid.Ready? && !StringEnd(s.buffer, mid.value).NeedMore? {
        StringEndStable(s.buffer, mid.value, more);
        LoadStringStable(s.buffer, more);
        if LoadString(s.buffer).Loaded? {
          LoadStringStable(LoadString(s.buffer).rest, more);
        }
      }
    }
  }

  lemma ProcessOpcodeStable(s: State, opcode: byte, more: seq<byte>)
    ensures Carries(StepProcessOpcode(Extend(s, more), opcode), StepProcessOpcode(s, opcode), more)
  {
    if opcode == OPCODE_SELECTDB {
      LoadLengthStable(s.buffer, more);
    } else if opcode == OPCODE_RESIZEDB {
      ResizeDbStable(s, more);
    } else if opcode == OPCODE_AUX {
      AuxStable(s, more);
    } else if opcode == OPCODE_EXPIRETIME {
      if |s.buffer| >= 4 { SliceOfAppend(s.buffer, more, 0, 4); }
    } else if opcode == OPCODE_EXPIRETIME_MS {
      if |s.buffer| >= 8 { SliceOfAppend(s.buffer, more, 0, 8); }
    }
  }

  lemma ValueStepStable(floats: Floats, s: State, valueType: byte, more: seq<byte>)
    ensures Carries(StepValue(floats, Extend(s, more), valueType), StepValue(floats, s, valueType), more)
  {
    if !ValueEnd(s.buffer, valueType).NeedMore? {
      ValueEndStable(s.buffer, valueType, more);
      ValueStable(floats, s.db, valueType, s.savedKey, s.buffer, more);
    }
  }

  /** A transition that makes progress or fails does exactly the same with more data buffered. */
  lemma StepStable(floats: Floats, s: State, more: seq<byte>)
    ensures Carries(Step(floats, Extend(s, more)), Step(floats, s), more)
  {
    match s.mode
    case Magic => MagicStable(s, more);
    case Opcode => if s.buffer != [] { SliceOfAppend(s.buffer, more, 0, 1); }
    case ProcessingOpcode(opcode) => ProcessOpcodeStable(s, opcode, more);
    case ProcessingKey(valueType) => LoadStringStable(s.buffer, more);
    case ProcessingValue(valueType) => ValueStepStable(floats, s, valueType, more);
    case WaitingChecksum => if |s.buffer| >= 8 { SliceOfAppend(s.buffer, more, 0, 8); }
    case Finished =>
  }

  // ----- Runs -----

  lemma PrependPrepend(a: seq<RawCommand>, b: seq<RawCommand>, r: FeedResult)
    ensures Prepend(a, Prepend(b, r)) == Prepend(a + b, r)
  {
    if r.Fed? {
      assert a + (b + r.commands) == a + b + r.commands;
    }
  }

  lemma PrependNothing(r: FeedResult)
    ensures Prepend([], r) == r
  {
    if r.Fed? {
      assert [] + r.commands == r.commands;
    }
  }

  /** Running on more data is running first without it and then with it. */
  lemma {:induction false} RunSplit(floats: Floats, s: State, more: seq<byte>)
    ensures match Run(floats, s)
      case Fed(s1, cmds) => Run(floats, Extend(s, more)) == Prepend(cmds, Run(floats, Extend(s1, more)))
      case Rejected(e) => Run(floats, Extend(s, more)) == Rejected(e)
    decreases |s.buffer|, Rank(s.mode)
  {
    StepStable(floats, s, more);
    match Step(floats, s)
    case Blocked => PrependNothing(Run(floats, Extend(s, more)));
    case Failed(e) =>
    case Progress(s', cmds) =>
      StepDecreases(floats, s);
      RunSplit(floats, s', more);
      if Run(floats, s').Fed? {
        PrependPrepend(cmds, Run(floats, s').commands, Run(floats, Extend(Run(floats, s').state, more)));
      }
  }

  /** A run stops in a state that cannot move. */
  lemma {:induction false} RunStops(floats: Floats, s: State)
    ensures Run(floats, s).Fed? ==> Step(floats, Run(floats, s).state) == Blocked
    decreases |s.buffer|, Rank(s.mode)
  {
    if Step(floats, s).Progress? {
      StepDecreases(floats, s);
      RunStops(floats, Step(floats, s).state);
    }
  }

  // ----- Feeding -----

  /**
   Feeding `a` and then `b` is feeding `a + b`, with the same error if there is one, unless `a`
   alone already finished the parser.
   */
  lemma FeedSplit(floats: Floats, s: State, a: seq<byte>, b: seq<byte>)
    ensures match Feed(floats, s, a)
      case Rejected(e) => Feed(floats, s, a + b) == Rejected(e)
      case Fed(s1, cmds) =>
        if s1.mode == Finished
        then Feed(floats, s, a + b) == Fed(Extend(s1, b), cmds)
        else Feed(floats, s, a + b) == Prepend(cmds, Feed(floats, s1, b))
  {
    if s.mode != Finished {
      assert Extend(s, a + b) == Extend(Extend(s, a), b) by {
        assert s.buffer + (a + b) == s.buffer + a + b;
      }
      RunSplit(floats, Extend(s, a), b);
      var r := Run(floats, Extend(s, a));
      if r.Fed? && r.state.mode == Finished {
        assert Run(floats, Extend(r.state, b)) == Fed(Extend(r.state, b), []);
        assert r.commands + [] == r.commands;
      }
    }
  }

  function Concat(chunks: seq<seq<byte>>): seq<byte> {
    if chunks == [] then [] else chunks[0] + Concat(chunks[1..])
  }

  /** One `feed_data` call per chunk, stopping at the first error. */
  function FeedAll(floats: Floats, s: State, chunks: seq<seq<byte>>): FeedResult
    decreases |chunks|
  {
    if chunks == [] then Fed(s, [])
    else
      match Feed(floats, s, chunks[0])
      case Rejected(e) => Rejected(e)
      case Fed(s1, cmds) => Prepend(cmds, FeedAll(floats, s1, chunks[1..]))
  }

  /** Some chunk arrives when the parser has already finished. */
  ghost predicate FinishedEarly(floats: Floats, s: State, chunks: seq<seq<byte>>)
    decreases |chunks|
  {
    chunks != [] &&
    (s.mode == Finished ||
     (Feed(floats, s, chunks[0]).Fed? && FinishedEarly(floats, Feed(floats, s, chunks[0]).state, chunks[1..])))
  }

  lemma {:induction false} FeedAllPrefix(floats: Floats, s: State, chunks: seq<seq<byte>>)
    requires chunks != []
    ensures FinishedEarly(floats, s, chunks) ==> FeedAll(floats, s, chunks) == Rejected(AlreadyFinished)
    ensures !FinishedEarly(floats, s, chunks) ==> FeedAll(floats, s, chunks) == Feed(floats, s, Concat(chunks))
    decreases |chunks|
  {
    var a, rest := chunks[0], chunks[1..];
    var r := Feed(floats, s, a);
    if s.mode == Finished {
    } else if rest == [] {
      assert Concat(rest) == [] && Concat(chunks) == a;
      if r.Fed? {
        assert FeedAll(floats, r.state, rest) == Fed(r.state, []) && !FinishedEarly(floats, r.state, rest);
        assert r.commands + [] == r.commands;
      }
    } else {
      FeedSplit(floats, s, a, Concat(rest));
      if r.Fed? {
        FeedAllPrefix(floats, r.state, rest);
      }
    }
  }

  /**
   Chunk independence, exactly: for any cut of the data into chunks, feeding the chunks one by
   one equals feeding everything at once, errors included, if and only if no chunk comes after
   the parser has finished; otherwise it is rejected although the single feed succeeds.
   */
  lemma ChunkIndependence(floats: Floats, s: State, chunks: seq<seq<byte>>)
    requires chunks != [] && s.mode != Finished
    ensures FeedAll(floats, s, chunks) == Feed(floats, s, Concat(chunks)) <==> !FinishedEarly(floats, s, chunks)
  {
    FeedAllPrefix(floats, s, chunks);
    if FinishedEarly(floats, s, chunks) {
      EarlyFinishSucceeds(floats, s, chunks);
    }
  }

  /** Data after the end of the file is ignored when it comes with the last feed. */
  lemma {:induction false} EarlyFinishSucceeds(floats: Floats, s: State, chunks: seq<seq<byte>>)
    requires s.mode != Finished && FinishedEarly(floats, s, chunks)
    ensures Feed(floats, s, Concat(chunks)).Fed? && Feed(floats, s, Concat(chunks)).state.mode == Finished
    decreases |chunks|
  {
    var s1 := Feed(floats, s, chunks[0]).state;
    FeedSplit(floats, s, chunks[0], Concat(chunks[1..]));
    if s1.mode != Finished {
      EarlyFinishSucceeds(floats, s1, chunks[1..]);
    }
  }

  /** Data that ends with the file cannot finish the parser before its last non-empty chunk. */
  lemma {:induction false} TightNotEarly(floats: Floats, s: State, chunks: seq<seq<byte>>)
    requires s.mode != Finished
    requires var r := Feed(floats, s, Concat(chunks)); r.Fed? && (r.state.mode == Finished ==> r.state.buffer == [])
    requires forall i :: 0 <= i < |chunks| ==> chunks[i] != []
    ensures !FinishedEarly(floats, s, chunks)
    decreases |chunks|
  {
    if chunks != [] {
      FeedSplit(floats, s, chunks[0], Concat(chunks[1..]));
      var s1 := Feed(floats, s, chunks[0]).state;
      if s1.mode != Finished {
        TightNotEarly(floats, s1, chunks[1..]);
      }
    }
  }
}
