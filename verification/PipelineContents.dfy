/** What the filler lays out is what gets published, and what readout returns is what the event loop follows. */
module PipelineContents {
  import opened Pipeline
  import opened PipelineInvariant
  import opened PipelineTheorems

  /** What a list of steps has laid out in the buffer being filled, and in those published before it, since the
      numbers were last set to 1. It is told from the steps alone. */
  datatype Contents = Contents(filling: seq<int>, published: seq<seq<int>>)

  function ContentsStep(c: Contents, s: State, a: Action): Contents {
    match a
    case FillerBegin(_) => Contents([], [])
    case FillerMutate(body) => c.(filling := body)
    case SwitchStep =>
      if s.filler.inner.SetTransport? then c.(published := c.published + [c.filling])
      else if s.filler.inner.Prepare? then c.(filling := [])
      else c
    case _ => c
  }

  function ContentsOf(s: State, actions: seq<Action>, c: Contents): Contents
    requires Exec(s, actions, false).Reached?
    decreases |actions|
  {
    if actions == [] then c
    else ContentsOf(Next(s, actions[0]), actions[1..], ContentsStep(c, s, actions[0]))
  }

  /** Bufseq, the words laid out, and the end record. */
  ghost predicate ImageOf(image: Image, body: seq<int>) {
    image != [] && image[1..] == body + [2, 0]
  }

  ghost predicate AllImagesOf(published: seq<Image>, bodies: seq<seq<int>>) {
    |published| == |bodies| && forall i :: 0 <= i < |published| ==> ImageOf(published[i], bodies[i])
  }

  /** As long as the begin has not failed, the memory holds what the steps have laid out. */
  ghost predicate Laid(s: State, c: Contents) {
    0 !in s.log.now.failed ==>
      && AllImagesOf(s.log.now.published, c.published)
      && (!(s.filler.inner.SetFill? || s.filler.inner.Count? || s.filler.inner.Prepare?) ==>
            s.mem.At(s.mem.fill).body == c.filling + if s.filler.inner.SetTransport? then [2, 0] else [])
  }

  lemma {:induction false} Nothing(body: seq<int>)
    ensures body + [] == body
    ensures var none: seq<int> := []; none + none == none
  {
  }

  lemma {:induction false} StepLays(s: State, a: Action, c: Contents)
    requires Inv(s) && Enabled(s, a) && Laid(s, c)
    ensures Laid(Next(s, a), ContentsStep(c, s, a))
  {
    match a
    case SwitchStep => SwitchLays(s, c);
    case WriterStep => ConsumersOnlyRead(s, a); LeavesContents(s, a, c);
    case SenderStep => ConsumersOnlyRead(s, a); LeavesContents(s, a, c);
    case LoopStep(_) => ConsumersOnlyRead(s, a); LeavesContents(s, a, c);
    case FillerStep => FillerLays(s, c);
    case FillerNoFile =>
    case FillerBegin(_) =>
    case FillerTooSmall(_) =>
    case _ => ReadoutLays(s, a, c);
  }

  lemma {:induction false} LeavesContents(s: State, a: Action, c: Contents)
    requires Laid(s, c) && EnabledUnguarded(s, a) && (a.WriterStep? || a.SenderStep? || a.LoopStep?)
    requires Next(s, a).mem == s.mem
    ensures Laid(Next(s, a), c)
  {
    hide AllImagesOf;
  }

  lemma {:induction false} FillerLays(s: State, c: Contents)
    requires RunInv(s) && Laid(s, c) && FillerEnabled(s)
    ensures Laid(FillerNext(s), c)
  {
    hide AllImagesOf;
  }

  lemma {:induction false} ReadoutLays(s: State, a: Action, c: Contents)
    requires RunInv(s) && FillInv(s.mem, s.filler.inner, s.log.now) && Laid(s, c) && Enabled(s, a)
    requires a.FillerMutate? || a.FillerSwitch? || a.FillerDone? || a.FillerEnd?
    ensures Laid(Next(s, a), ContentsStep(c, s, a))
  {
    hide AllImagesOf, NextNumber;
    Nothing(c.filling);
    if a.FillerMutate? {
      Nothing(a.body);
    }
  }

  lemma {:induction false} SwitchLays(s: State, c: Contents)
    requires RunInv(s) && FillInv(s.mem, s.filler.inner, s.log.now) && Laid(s, c) && SwitchEnabled(s)
    ensures Laid(SwitchNext(s), ContentsStep(c, s, SwitchStep))
  {
    hide AllImagesOf, NextNumber;
    Nothing(c.filling);
    if s.filler.inner.SetTransport? && 0 !in s.log.now.failed {
      PublishLays(s.log.now.published, s.mem.At(s.mem.fill), c);
    }
  }

  lemma {:induction false} PublishLays(published: seq<Image>, b: Buffer, c: Contents)
    requires AllImagesOf(published, c.published) && b.body == c.filling + [2, 0]
    ensures AllImagesOf(published + [b.Flat()], c.published + [c.filling])
  {
    assert b.Flat()[1..] == b.body;
  }

  lemma {:induction false} RunLays(s: State, actions: seq<Action>, c: Contents)
    requires Inv(s) && Laid(s, c) && Exec(s, actions, false).Reached?
    ensures Laid(Exec(s, actions, false).state, ContentsOf(s, actions, c))
    decreases |actions|
  {
    hide Inv, Next, Laid, ContentsStep;
    if actions != [] {
      StepKeeps(s, actions[0]);
      StepLays(s, actions[0], c);
      RunLays(Next(s, actions[0]), actions[1..], ContentsStep(c, s, actions[0]));
    }
  }

  /** In every guarded run, unless the begin failed, each published buffer holds exactly what was last laid out in it
      since it was prepared, or nothing, and then the end record. */
  lemma {:induction false} PublishedAsLaidOut(actions: seq<Action>, s: State)
    requires Exec(Init(), actions, false) == Reached(s) && 0 !in s.log.now.failed
    ensures var bodies := ContentsOf(Init(), actions, Contents([], [])).published;
            && |s.log.now.published| == |bodies|
            && forall i :: 0 <= i < |bodies| ==>
                 s.log.now.published[i] != [] && s.log.now.published[i][1..] == bodies[i] + [2, 0]
  {
    InitInv();
    Nothing([]);
    assert Laid(Init(), Contents([], []));
    RunLays(Init(), actions, Contents([], []));
  }

  // ---------------------------------------------------------------------------------------------
  // What readout returns

  /** After the readout of a trigger the event loop does what its status asks for, whatever the other threads do in
      between: with 1 it ends the run, with 2 it changes the file, otherwise it waits for the next trigger. */
  lemma {:induction false} StatusFollowed(s: State, a: Action)
    requires Reachable(s, false) && Enabled(s, a)
    ensures s.filler.pc == Reading(ForTrigger) && a.FillerDone? ==>
              Next(s, a).filler.pc.ClearTodo? && Next(s, a).filler.rstatus == a.status
    ensures s.filler.pc.ClearTodo? || s.filler.pc.FreeTrigger? ==>
              && Next(s, a).filler.rstatus == s.filler.rstatus
              && (a.FillerStep? ==> Next(s, a).filler.pc == if s.filler.pc.ClearTodo? then FreeTrigger else Decide)
              && (!a.FillerStep? ==> Next(s, a).filler == s.filler)
    ensures s.filler.pc.Decide? && !a.FillerStep? ==> Next(s, a).filler == s.filler
    ensures s.filler.pc.Decide? && a.FillerStep? ==>
              var t := Next(s, a);
              && t.filler.pc == (if s.filler.rstatus == 1 then Reading(ForEnd)
                                 else if s.filler.rstatus == 2 then Reading(ForRestart) else Rest)
              && (t.mode.running <==> s.filler.rstatus != 1 && s.mode.running)
              && (t.loop.control <==> s.filler.rstatus != 1 && s.loop.control)
              && t.mem == s.mem && t.log == s.log
  {
    ReachableInv(s);
  }
}
