/**
 Fragmented delivery: how a message was cut does not matter to either side.
 A frame carries the final-fragment flag of section 5.4 of RFC 6455.
 */
module Fragments {
  import opened Bytes
  import opened Codec
  import opened Message
  import opened Remote
  import opened Service

  datatype Frame = Frame(piece: Bytes, final: bool)

  /** The complete messages in a stream of frames, and what is left in the buffer. */
  function Reassemble(buffer: Bytes, frames: seq<Frame>): (seq<Bytes>, Bytes)
    decreases |frames|
  {
    if frames == [] then ([], buffer)
    else
      var m := buffer + frames[0].piece;
      if frames[0].final then
        var (ms, rest) := Reassemble([], frames[1..]);
        ([m] + ms, rest)
      else Reassemble(m, frames[1..])
  }

  function Join(pieces: seq<Bytes>): Bytes {
    if pieces == [] then [] else pieces[0] + Join(pieces[1..])
  }

  /** The frames of one message cut into pieces; only the last is final. */
  function FramesOf(pieces: seq<Bytes>): seq<Frame> {
    seq(|pieces|, i requires 0 <= i < |pieces| => Frame(pieces[i], i == |pieces| - 1))
  }

  function AllFrames(cuts: seq<seq<Bytes>>): seq<Frame> {
    if cuts == [] then [] else FramesOf(cuts[0]) + AllFrames(cuts[1..])
  }

  function Joined(cuts: seq<seq<Bytes>>): seq<Bytes> {
    seq(|cuts|, i requires 0 <= i < |cuts| => Join(cuts[i]))
  }

  lemma {:induction false} OneMessage(buffer: Bytes, pieces: seq<Bytes>, later: seq<Frame>)
    requires pieces != []
    ensures Reassemble(buffer, FramesOf(pieces) + later)
            == var (ms, rest) := Reassemble([], later); ([buffer + Join(pieces)] + ms, rest)
    decreases |pieces|
  {
    var frames := FramesOf(pieces) + later;
    if |pieces| == 1 {
      assert frames[1..] == later;
      assert Join(pieces) == pieces[0] by { assert pieces[1..] == []; }
    } else {
      assert frames[1..] == FramesOf(pieces[1..]) + later;
      OneMessage(buffer + pieces[0], pieces[1..], later);
      assert buffer + pieces[0] + Join(pieces[1..]) == buffer + Join(pieces);
    }
  }

  /** Whatever the cuts, the messages come out whole and the buffer ends empty. */
  lemma {:induction false} CutsDoNotMatter(cuts: seq<seq<Bytes>>)
    requires forall pieces | pieces in cuts :: pieces != []
    ensures Reassemble([], AllFrames(cuts)) == (Joined(cuts), [])
  {
    if cuts == [] {
      assert Joined(cuts) == [];
    } else {
      assert cuts[0] in cuts && forall pieces | pieces in cuts[1..] :: pieces in cuts;
      OneMessage([], cuts[0], AllFrames(cuts[1..]));
      CutsDoNotMatter(cuts[1..]);
      assert [] + Join(cuts[0]) == Join(cuts[0]);
      assert [Join(cuts[0])] + Joined(cuts[1..]) == Joined(cuts);
    }
  }

  // ----- The service -----

  function Receives(frames: seq<Frame>): seq<Step> {
    seq(|frames|, i requires 0 <= i < |frames| => Receive(frames[i].piece, frames[i].final))
  }

  /** The effect of a list of complete messages. */
  function AfterMessages(env: Settings, s: State, ms: seq<Bytes>): State
    decreases |ms|
  {
    if ms == [] then s else AfterMessages(env, AfterMessage(env, s, ms[0]), ms[1..])
  }

  lemma {:induction false} AfterMessagesKeepsBuffer(env: Settings, s: State, ms: seq<Bytes>)
    ensures AfterMessages(env, s, ms).buffer == s.buffer
    decreases |ms|
  {
    if ms != [] { AfterMessagesKeepsBuffer(env, AfterMessage(env, s, ms[0]), ms[1..]); }
  }

  lemma BufferApart(env: Settings, s: State, m: Bytes, b: Bytes)
    ensures AfterMessage(env, s.(buffer := b), m) == AfterMessage(env, s, m).(buffer := b)
  {
    hide DecodeData, IdOf;
  }

  lemma {:induction false} BufferApartAll(env: Settings, s: State, ms: seq<Bytes>, b: Bytes)
    ensures AfterMessages(env, s.(buffer := b), ms) == AfterMessages(env, s, ms).(buffer := b)
    decreases |ms|
  {
    if ms != [] {
      hide AfterMessage;
      BufferApart(env, s, ms[0], b);
      BufferApartAll(env, AfterMessage(env, s, ms[0]), ms[1..], b);
    }
  }

  /** Receiving frames has the effect of the messages they carry, and keeps the incomplete rest. */
  lemma {:induction false} ReceivesAreMessages(env: Settings, s: State, frames: seq<Frame>)
    ensures CanRun(env, s, Receives(frames))
    ensures var (ms, rest) := Reassemble(s.buffer, frames);
            Run(env, s, Receives(frames)) == AfterMessages(env, s, ms).(buffer := rest)
    decreases |frames|
  {
    if frames != [] {
      hide AfterMessage;
      var s1 := AfterReceive(env, s, frames[0].piece, frames[0].final);
      assert Receives(frames)[1..] == Receives(frames[1..]);
      ReceivesAreMessages(env, s1, frames[1..]);
      var m := s.buffer + frames[0].piece;
      if frames[0].final {
        BufferApart(env, s, m, []);
        var (ms, rest) := Reassemble([], frames[1..]);
        BufferApartAll(env, AfterMessage(env, s, m), ms, []);
      } else {
        var (ms, rest) := Reassemble(m, frames[1..]);
        BufferApartAll(env, s, ms, m);
      }
    }
  }

  /**
   On a connection that starts with an empty buffer, two ways to cut the same messages leave the service in
   the same state, again with an empty buffer, also when messages do not decode.
   */
  lemma CutsLeaveTheSameState(env: Settings, s: State, a: seq<seq<Bytes>>, b: seq<seq<Bytes>>)
    requires s.buffer == [] && Joined(a) == Joined(b)
    requires forall pieces | pieces in a + b :: pieces != []
    ensures CanRun(env, s, Receives(AllFrames(a))) && CanRun(env, s, Receives(AllFrames(b)))
    ensures Run(env, s, Receives(AllFrames(a))) == Run(env, s, Receives(AllFrames(b)))
            == AfterMessages(env, s, Joined(a))
    ensures AfterMessages(env, s, Joined(a)).buffer == []
  {
    hide AfterMessages;
    forall pieces | pieces in a ensures pieces != [] { assert pieces in a + b; }
    forall pieces | pieces in b ensures pieces != [] { assert pieces in a + b; }
    CutsDoNotMatter(a);
    CutsDoNotMatter(b);
    ReceivesAreMessages(env, s, AllFrames(a));
    ReceivesAreMessages(env, s, AllFrames(b));
    AfterMessagesKeepsBuffer(env, s, Joined(a));
  }

  // ----- Fragments among other steps -----

  /**
   A run with its fragments put together: every final fragment becomes the whole message, the others disappear, and all
   other steps stay where they are.  The second part is what is left in the buffer.
   */
  function Assembled(buffer: Bytes, steps: seq<Step>): (seq<Step>, Bytes)
    decreases |steps|
  {
    if steps == [] then ([], buffer)
    else if !steps[0].Receive? then
      var (later, rest) := Assembled(buffer, steps[1..]);
      ([steps[0]] + later, rest)
    else if steps[0].final then
      var (later, rest) := Assembled([], steps[1..]);
      ([Receive(buffer + steps[0].fragment, true)] + later, rest)
    else Assembled(buffer + steps[0].fragment, steps[1..])
  }

  /** Every other step neither looks at the buffer nor changes it. */
  lemma OtherStepApart(env: Settings, s: State, step: Step, b: Bytes)
    requires !step.Receive?
    ensures Enabled(s.(buffer := b), step) == Enabled(s, step)
    ensures Enabled(s, step) ==> Apply(env, s.(buffer := b), step) == Apply(env, s, step).(buffer := b)
  {
    hide WithId, MessageOf;
  }

  lemma OneStep(env: Settings, s: State, step: Step, later: seq<Step>)
    ensures CanRun(env, s, [step] + later) <==> Enabled(s, step) && CanRun(env, Apply(env, s, step), later)
    ensures CanRun(env, s, [step] + later) ==>
              Run(env, s, [step] + later) == Run(env, Apply(env, s, step), later)
  {
    hide Apply, Enabled;
    assert ([step] + later)[1..] == later;
  }

  lemma FirstStep(env: Settings, s: State, steps: seq<Step>)
    requires steps != []
    ensures CanRun(env, s, steps) <==> Enabled(s, steps[0]) && CanRun(env, Apply(env, s, steps[0]), steps[1..])
    ensures CanRun(env, s, steps) ==> Run(env, s, steps) == Run(env, Apply(env, s, steps[0]), steps[1..])
  {
    hide Apply, Enabled;
  }

  /** A complete message has the same effect from the buffer and in one piece. */
  lemma WholeMessage(env: Settings, s: State, piece: Bytes)
    ensures Apply(env, s, Receive(piece, true)).buffer == []
    ensures Apply(env, s.(buffer := []), Receive(s.buffer + piece, true)) == Apply(env, s, Receive(piece, true))
  {
    hide AfterMessage;
    assert [] + (s.buffer + piece) == s.buffer + piece;
    BufferApart(env, s, s.buffer + piece, []);
  }

  lemma OtherStepKeepsBuffer(env: Settings, s: State, step: Step)
    requires !step.Receive? && Enabled(s, step)
    ensures Apply(env, s, step).buffer == s.buffer
  {
    hide WithId, MessageOf;
  }

  /** Any run is the run of its whole messages, with the incomplete rest in the buffer. */
  lemma {:induction false} AssembledRun(env: Settings, s: State, steps: seq<Step>)
    ensures var (whole, rest) := Assembled(s.buffer, steps);
            && (CanRun(env, s, steps) <==> CanRun(env, s.(buffer := []), whole))
            && (CanRun(env, s, steps) ==> Run(env, s, steps) == Run(env, s.(buffer := []), whole).(buffer := rest))
    decreases |steps|
  {
    if steps == [] {
      assert s.(buffer := []).(buffer := s.buffer) == s;
    } else {
      var step := steps[0];
      var bare := s.(buffer := []);
      if !step.Receive? {
        hide CanRun, Run, Apply, Enabled;
        FirstStep(env, s, steps);
        OtherStepApart(env, s, step, []);
        OneStep(env, bare, step, Assembled(s.buffer, steps[1..]).0);
        if Enabled(s, step) {
          OtherStepKeepsBuffer(env, s, step);
          AssembledRun(env, Apply(env, s, step), steps[1..]);
        }
      } else if step.final {
        assert Enabled(s, step) && Enabled(bare, Receive(s.buffer + step.fragment, true));
        hide CanRun, Run, Apply, Enabled;
        FirstStep(env, s, steps);
        WholeMessage(env, s, step.fragment);
        OneStep(env, bare, Receive(s.buffer + step.fragment, true), Assembled([], steps[1..]).0);
        AssembledRun(env, Apply(env, s, step), steps[1..]);
        assert Apply(env, s, step).(buffer := []) == Apply(env, s, step);
      } else {
        assert Apply(env, s, step) == s.(buffer := s.buffer + step.fragment);
        hide CanRun, Run, Apply;
        FirstStep(env, s, steps);
        AssembledRun(env, Apply(env, s, step), steps[1..]);
      }
    }
  }

  /**
   Two runs with the same whole messages at the same places among their other steps, however these are cut, whatever
   falls between the fragments and whoever sends them, can both be made or neither, and leave the service in
   the same state.
   */
  lemma FragmentationIndependence(env: Settings, s: State, a: seq<Step>, b: seq<Step>)
    requires Assembled(s.buffer, a) == Assembled(s.buffer, b)
    ensures CanRun(env, s, a) <==> CanRun(env, s, b)
    ensures CanRun(env, s, a) ==> Run(env, s, a) == Run(env, s, b)
  {
    hide CanRun, Run;
    AssembledRun(env, s, a);
    AssembledRun(env, s, b);
  }
}
