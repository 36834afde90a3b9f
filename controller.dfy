/** `AudioController`: one decoded buffer, one-shot playback nodes, and the
    playback position derived from the audio clock (`now - startTime` while
    playing, `pauseTime` otherwise) instead of a ticking counter.

    The Web Audio engine is abstracted: `now` stands for
    `context.currentTime` and only moves forward through `Advance`; a
    playback node is a numbered handle; `sounding` holds the nodes that are
    producing audio and `pendingEnded` the nodes whose `ended` event has
    not been dispatched yet (stopping a node queues its event, it does not
    run it). The asynchronous `onended` handler is the method `NodeEnded`,
    which the environment calls for a node with a pending event. */
module Playback {
  import opened Results
  import opened Pcm

  type NodeId = nat

  /** `offset || this.pauseTime`: an offset of 0 means "resume from pauseTime". */
  function StartOffset(offset: real, pauseTime: real): real {
    if offset != 0.0 then offset else pauseTime
  }

  class AudioController {
    var now: real
    var source: Option<NodeId>
    var startTime: real
    var pauseTime: real
    var isPlaying: bool
    var buffer: Option<AudioBuffer>
    /** How many times the `onEnded` callback has been invoked. */
    var endedCalls: nat

    // The audio engine around the controller.
    /** The handle the next `createBufferSource()` returns. */
    var nextNode: NodeId
    var sounding: set<NodeId>
    var pendingEnded: set<NodeId>

    ghost predicate Valid()
      reads this
    {
      pauseTime >= 0.0 &&
      (isPlaying ==> source.Some? && source.value in sounding && buffer.Some? && startTime <= now) &&
      (source.Some? ==> source.value < nextNode) &&
      sounding <= pendingEnded &&
      (forall id :: id in pendingEnded ==> id < nextNode) &&
      (buffer.Some? ==> buffer.value.WellFormed())
    }

    /** The intended single-voice discipline: the only node producing audio
        is the current source, and only while the controller says it plays. */
    ghost predicate SingleVoice()
      reads this
    {
      sounding == if isPlaying && source.Some? then {source.value} else {}
    }

    constructor ()
      ensures Valid() && SingleVoice()
      ensures now == 0.0 && source == None && startTime == 0.0 && pauseTime == 0.0
      ensures !isPlaying && buffer == None && endedCalls == 0
      ensures nextNode == 0 && sounding == {} && pendingEnded == {}
    {
      now := 0.0;
      source := None;
      startTime := 0.0;
      pauseTime := 0.0;
      isPlaying := false;
      buffer := None;
      endedCalls := 0;
      nextNode := 0;
      sounding := {};
      pendingEnded := {};
    }

    /** The audio clock moves forward by `dt` seconds. */
    method Advance(dt: real)
      requires Valid() && dt >= 0.0
      modifies this`now
      ensures Valid()
      ensures now == old(now) + dt
      ensures SingleVoice() == old(SingleVoice())
    {
      now := now + dt;
    }

    /** `getCurrentTime()`: never negative. */
    function GetCurrentTime(): (t: real)
      reads this
      requires Valid()
      ensures t >= 0.0
    {
      if !isPlaying then pauseTime else now - startTime
    }

    /** `getDuration()`: `buffer?.duration || 0`. */
    function GetDuration(): (d: real)
      reads this
      requires Valid()
      ensures d >= 0.0
      ensures d == 0.0 <==> buffer.None?
      ensures buffer.Some? ==> d == |buffer.value.channelData| as real / 24000.0
    {
      if buffer.Some? && buffer.value.Duration() != 0.0 then buffer.value.Duration() else 0.0
    }

    /** `loadAudio(base64)`: on success only `buffer` changes (no reset of
        `pauseTime`, no stop of a playing node); on failure nothing changes. */
    method LoadAudio(base64: string) returns (r: Result<AudioBuffer>)
      requires Valid()
      modifies this`buffer
      ensures Valid()
      ensures r == Decode(base64)
      ensures buffer == if r.Ok? then Some(r.value) else old(buffer)
      ensures SingleVoice() == old(SingleVoice())
    {
      r := DecodeAudioData(base64);
      if r.Ok? {
        DecodeSuccess(base64);
        buffer := Some(r.value);
      }
    }

    /** `play(offset)`: without a buffer, nothing. Otherwise a fresh node is
        started at `StartOffset(offset, pauseTime)`; an existing source is
        not stopped first. `offset` is never negative: callers pass none
        (0), and a negative offset makes the node's `start` throw. */
    method Play(offset: real)
      requires Valid() && offset >= 0.0
      modifies this`source, this`startTime, this`isPlaying, this`nextNode, this`sounding, this`pendingEnded
      ensures Valid()
      ensures old(buffer).None? ==> unchanged(this)
      ensures old(buffer).Some? ==>
                isPlaying && source == Some(old(nextNode)) && nextNode == old(nextNode) + 1 &&
                sounding == old(sounding) + {old(nextNode)} &&
                pendingEnded == old(pendingEnded) + {old(nextNode)} &&
                GetCurrentTime() == StartOffset(offset, pauseTime)
      ensures old(!isPlaying) && old(SingleVoice()) ==> SingleVoice()
    {
      if buffer.None? {
        return;
      }
      var node := nextNode;
      nextNode := nextNode + 1;
      source := Some(node);
      var startOffset := StartOffset(offset, pauseTime);
      startTime := now - startOffset;
      sounding := sounding + {node};
      pendingEnded := pendingEnded + {node};
      isPlaying := true;
    }

    /** `pause()`: when playing, stops the node and remembers the position;
        otherwise nothing. The reported position is the same before and after. */
    method Pause()
      requires Valid()
      modifies this`source, this`pauseTime, this`isPlaying, this`sounding
      ensures Valid()
      ensures old(isPlaying) ==>
                !isPlaying && source == None && pauseTime == old(now - startTime) &&
                sounding == old(sounding) - {old(source).value}
      ensures !old(isPlaying) ==> unchanged(this)
      ensures GetCurrentTime() == old(GetCurrentTime())
      ensures old(SingleVoice()) ==> SingleVoice()
    {
      if source.Some? && isPlaying {
        sounding := sounding - {source.value};
        pauseTime := now - startTime;
        isPlaying := false;
        source := None;
      }
    }

    /** `stop()`: stops the node if there is one (stopping a node that has
        already stopped raises nothing), rewinds to 0. A second call changes
        nothing. */
    method Stop()
      requires Valid()
      modifies this`source, this`pauseTime, this`isPlaying, this`sounding
      ensures Valid()
      ensures !isPlaying && source == None && pauseTime == 0.0 && GetCurrentTime() == 0.0
      ensures sounding == if old(source).Some? then old(sounding) - {old(source).value} else old(sounding)
      ensures old(source).None? && old(pauseTime) == 0.0 && !old(isPlaying) ==> unchanged(this)
      ensures old(SingleVoice()) ==> SingleVoice()
    {
      if source.Some? {
        sounding := sounding - {source.value};
      }
      pauseTime := 0.0;
      isPlaying := false;
      source := None;
    }

    /** `seek(time)`: stop, set the position, and restart if it was playing.
        The controller does not clamp; callers pass a time that is not
        negative. */
    method Seek(time: real)
      requires Valid() && time >= 0.0
      modifies this`source, this`startTime, this`pauseTime, this`isPlaying, this`nextNode, this`sounding, this`pendingEnded
      ensures Valid()
      ensures isPlaying == old(isPlaying)
      ensures pauseTime == time && GetCurrentTime() == time
      ensures old(isPlaying) ==>
                source == Some(old(nextNode)) && nextNode == old(nextNode) + 1 &&
                sounding == old(sounding) - {old(source).value} + {old(nextNode)} &&
                pendingEnded == old(pendingEnded) + {old(nextNode)}
      ensures !old(isPlaying) ==>
                source == None && startTime == old(startTime) && nextNode == old(nextNode) &&
                pendingEnded == old(pendingEnded) &&
                sounding == if old(source).Some? then old(sounding) - {old(source).value} else old(sounding)
      ensures old(SingleVoice()) ==> SingleVoice()
    {
      var wasPlaying := isPlaying;
      Stop();
      pauseTime := time;
      if wasPlaying {
        Play(0.0);
      }
    }

    /** The `onended` handler as written: it looks only at the shared
        `isPlaying` flag, not at which node ended. */
    method NodeEnded(id: NodeId)
      requires Valid() && id in pendingEnded
      modifies this`isPlaying, this`endedCalls, this`sounding, this`pendingEnded
      ensures Valid()
      ensures pendingEnded == old(pendingEnded) - {id} && sounding == old(sounding) - {id}
      ensures !isPlaying
      ensures endedCalls == old(endedCalls) + (if old(isPlaying) then 1 else 0)
      ensures old(SingleVoice()) && (old(isPlaying) ==> old(source) == Some(id)) ==> SingleVoice()
    {
      sounding := sounding - {id};
      pendingEnded := pendingEnded - {id};
      if isPlaying {
        isPlaying := false;
        endedCalls := endedCalls + 1;
      }
    }

    /** Corrected `onended` handler: only the current source's event counts. */
    method NodeEndedGuarded(id: NodeId)
      requires Valid() && id in pendingEnded
      modifies this`isPlaying, this`endedCalls, this`sounding, this`pendingEnded
      ensures Valid()
      ensures pendingEnded == old(pendingEnded) - {id} && sounding == old(sounding) - {id}
      ensures old(isPlaying) && old(source) == Some(id) ==> !isPlaying && endedCalls == old(endedCalls) + 1
      ensures !(old(isPlaying) && old(source) == Some(id)) ==>
                isPlaying == old(isPlaying) && endedCalls == old(endedCalls)
      ensures old(SingleVoice()) ==> SingleVoice()
    {
      sounding := sounding - {id};
      pendingEnded := pendingEnded - {id};
      if isPlaying && source == Some(id) {
        isPlaying := false;
        endedCalls := endedCalls + 1;
      }
    }
  }

  // -----------------------------------------------------------------------
  // Properties that span several calls

  /** Two `ended` events in a row invoke `onEnded` at most once. */
  method EndedTwice(c: AudioController, a: NodeId, b: NodeId)
    requires c.Valid() && a in c.pendingEnded && b in c.pendingEnded && a != b
    modifies c
    ensures c.Valid() && !c.isPlaying
    ensures c.endedCalls <= old(c.endedCalls) + 1
  {
    c.NodeEnded(a);
    c.NodeEnded(b);
  }

  /** A `pause()` processed before an `ended` event suppresses the callback. */
  method PauseThenEnded(c: AudioController, id: NodeId)
    requires c.Valid() && id in c.pendingEnded
    modifies c
    ensures c.Valid() && !c.isPlaying
    ensures c.endedCalls == old(c.endedCalls)
  {
    c.Pause();
    c.NodeEnded(id);
  }

  /** A `stop()` processed before an `ended` event suppresses the callback. */
  method StopThenEnded(c: AudioController, id: NodeId)
    requires c.Valid() && id in c.pendingEnded
    modifies c
    ensures c.Valid() && !c.isPlaying && c.pauseTime == 0.0
    ensures c.endedCalls == old(c.endedCalls)
  {
    c.Stop();
    c.NodeEnded(id);
  }

  /** A 2.0 s buffer (48000 silent frames): play, 1.0 s, pause -> 1.0;
      play, 0.5 s -> 1.5; seek(0.2) -> 0.2; pause, play -> resumes at 0.2. */
  method TimingScenario() returns (afterPause: real, afterResume: real, afterSeek: real, afterReplay: real)
    ensures afterPause == 1.0 && afterResume == 1.5 && afterSeek == 0.2 && afterReplay == 0.2
  {
    var c := NewLoadedController();
    c.Play(0.0);
    c.Advance(1.0);
    c.Pause();
    afterPause := c.GetCurrentTime();
    c.Play(0.0);
    c.Advance(0.5);
    afterResume := c.GetCurrentTime();
    c.Seek(0.2);
    afterSeek := c.GetCurrentTime();
    c.Pause();
    c.Play(0.0);
    afterReplay := c.GetCurrentTime();
  }

  /** A controller holding a decoded 2.0 s buffer (48000 silent frames). */
  method NewLoadedController() returns (c: AudioController)
    ensures fresh(c) && c.Valid() && c.SingleVoice()
    ensures c.buffer.Some? && c.GetDuration() == 2.0
    ensures c.now == 0.0 && !c.isPlaying && c.source == None && c.pauseTime == 0.0 && c.endedCalls == 0
    ensures c.nextNode == 0 && c.sounding == {} && c.pendingEnded == {}
  {
    var silence: seq<Int16> := seq(48000, i => 0);
    DecodeRoundTrip(silence);
    c := new AudioController();
    var loaded := c.LoadAudio(Base64.Encode(PcmBytes(silence)));
  }

  /** Play from 0, let 0.5 s pass, seek to 1.5 s: node 0 is stopped (its
      `ended` event still queued) and node 1 plays. */
  method PlayThenSeek() returns (c: AudioController)
    ensures fresh(c) && c.Valid() && c.SingleVoice()
    ensures c.isPlaying && c.source == Some(1) && c.endedCalls == 0
    ensures c.sounding == {1} && c.pendingEnded == {0, 1} && c.nextNode == 2
  {
    c := NewLoadedController();
    c.Play(0.0);
    c.Advance(0.5);
    c.Seek(1.5);
  }

  /** As written, a seek while playing leaks an `ended` event: the stopped
      node's queued event finds `isPlaying` set by the restart, clears it and
      calls `onEnded` while the new node is still sounding. The caller, told
      that playback ended, calls `play()` and two nodes then sound at once. */
  method StaleEndedAfterSeek() returns (callbackCalls: nat, controllerPlaying: bool, voicesBeforeReplay: nat, voicesAfterReplay: nat)
    ensures callbackCalls == 1 && !controllerPlaying
    ensures voicesBeforeReplay == 1 && voicesAfterReplay == 2
  {
    var c := PlayThenSeek();
    c.NodeEnded(0);
    callbackCalls := c.endedCalls;
    controllerPlaying := c.isPlaying;
    assert c.sounding == {1};
    voicesBeforeReplay := |c.sounding|;
    c.Play(0.0);
    assert c.sounding == {1, 2};
    voicesAfterReplay := |c.sounding|;
  }

  /** With the corrected handler the same events leave playback running with
      one voice, and `onEnded` fires once, when the current node ends. */
  method StaleEndedAfterSeekGuarded() returns (callbacksAfterStale: nat, controllerPlaying: bool, voices: nat, callbacksAtEnd: nat)
    ensures callbacksAfterStale == 0 && controllerPlaying && voices == 1
    ensures callbacksAtEnd == 1
  {
    var c := PlayThenSeek();
    c.NodeEndedGuarded(0);
    callbacksAfterStale := c.endedCalls;
    controllerPlaying := c.isPlaying;
    assert c.sounding == {1};
    voices := |c.sounding|;
    c.Advance(0.5);
    c.NodeEndedGuarded(1);
    callbacksAtEnd := c.endedCalls;
  }
}
