/** From publisher to client: what a subscriber hands out decodes to the events of frames that were published to it. */
module StreamDelivery {
  import opened Text
  import opened SseFrames
  import opened SseQueue

  ghost predicate IsFrame(text: string) { exists f: Frame :: FrameText(f) == text }

  /** Only frames are enqueued, as the channel does. */
  ghost predicate Publishes(ops: seq<Op>) {
    forall i :: 0 <= i < |ops| && ops[i].EnqueueOp? ==> IsFrame(ops[i].frame)
  }

  ghost predicate AllFrames(texts: seq<string>) { forall i :: 0 <= i < |texts| ==> IsFrame(texts[i]) }

  predicate AreTexts(frames: seq<Frame>, texts: seq<string>) {
    |frames| == |texts| && forall i :: 0 <= i < |texts| ==> FrameText(frames[i]) == texts[i]
  }

  lemma {:induction false} FramesOf(texts: seq<string>) returns (frames: seq<Frame>)
    requires AllFrames(texts)
    ensures AreTexts(frames, texts) && StreamText(frames) == Concat(texts)
  {
    if texts == [] {
      frames := [];
    } else {
      assert IsFrame(texts[0]);
      var first: Frame :| FrameText(first) == texts[0];
      var rest := FramesOf(texts[1..]);
      frames := [first] + rest;
      assert frames[1..] == rest;
    }
  }

  lemma {:induction false} SubsequenceHas(a: seq<string>, b: seq<string>, x: string)
    requires Subsequence(a, b) && x in a
    ensures x in b
    decreases |b|
  {
    var (n, m) := (|a| - 1, |b| - 1);
    if a[n] == b[m] && Subsequence(a[..n], b[..m]) {
      if x != a[n] {
        assert x in a[..n];
        SubsequenceHas(a[..n], b[..m], x);
      }
    } else {
      SubsequenceHas(a, b[..m], x);
    }
  }

  lemma HeartbeatIsFrame()
    ensures IsFrame(HEARTBEAT)
  {
    assert FrameText(Heartbeat) == HEARTBEAT;
  }

  lemma {:induction false} AcceptedAreFrames(s: Subscriber, ops: seq<Op>)
    requires Publishes(ops) && AllFrames(s.queue)
    ensures AllFrames(Past(s, ops).accepted)
    decreases |ops|
  {
    if ops != [] {
      var before := ops[..|ops| - 1];
      AcceptedAreFrames(s, before);
      HeartbeatIsFrame();
    }
  }

  /** In any run, the bytes pulled from a subscriber are whole frames, and a client decodes them to exactly the events of
      those frames: published ones, in the order of publication. */
  lemma ClientSeesPublishedEvents(budget: nat, interval: int, retryMs: Option<nat>, now: int, ops: seq<Op>) returns (frames: seq<Frame>)
    requires Publishes(ops)
    ensures var retry := if retryMs.Some? then Some(FrameText(Retry(retryMs.value))) else None;
            var past := Past(New(budget, interval, retry, now), ops);
            && AreTexts(frames, past.delivered)
            && Decode(Concat(past.batches)) == ExpectedAll(frames)
            && Subsequence(past.delivered, past.accepted)
  {
    var retry := if retryMs.Some? then Some(FrameText(Retry(retryMs.value))) else None;
    var s0 := New(budget, interval, retry, now);
    var (s, past) := (Run(s0, ops), Past(s0, ops));
    QueueOptimality(budget, interval, retry, now, ops);
    assert AllFrames(s0.queue);
    AcceptedAreFrames(s0, ops);
    SubsequencePrefix(past.delivered, s.queue, past.accepted);
    forall i | 0 <= i < |past.delivered| ensures IsFrame(past.delivered[i]) {
      SubsequenceHas(past.delivered, past.accepted, past.delivered[i]);
    }
    frames := FramesOf(past.delivered);
    RoundTrip(frames);
  }

  lemma {:induction false} SubsequencePrefix(a: seq<string>, more: seq<string>, b: seq<string>)
    requires Subsequence(a + more, b)
    ensures Subsequence(a, b)
    decreases |b|
  {
    var whole := a + more;
    if more == [] {
      assert whole == a;
    } else {
      var (n, m) := (|whole| - 1, |b| - 1);
      if whole[n] == b[m] && Subsequence(whole[..n], b[..m]) {
        assert whole[..n] == a + more[..|more| - 1];
        SubsequencePrefix(a, more[..|more| - 1], b[..m]);
      } else {
        SubsequencePrefix(a, more, b[..m]);
      }
      if a != [] { SubsequenceWiden(a, b[..m], b[m]); assert b == b[..m] + [b[m]]; }
    }
  }
}
