/** The decision rules of one frame as pure functions: the low-light channel,
    then one arbitration step per detection in detector order. The class in
    module Engine runs these same rules in place and is proved against them. */
module Arbiter {
  import opened Detection

  /** Frames darker than this mean grey level trigger the low-light channel. */
  const DarkThreshold: int := 40

  /** Cooldowns, in milliseconds. */
  const DarkCooldown: int := 15000
  const DangerCooldown: int := 2000
  const FocusCooldown: int := 3000

  const LowLightMessage: string := "Low light detected."

  /** The warning spoken for a dangerous in-focus object. */
  function DangerMessage(name: string): string {
    "Stop! " + name + " too close."
  }

  /** The session variables that survive from frame to frame: the time of
      the last object utterance, of the last low-light warning, and the
      label last announced as the focused object. */
  datatype Session = Session(lastSpeak: int, lastDark: int, current: string)

  /** The session at start-up. */
  const Initial: Session := Session(0, 0, "")

  /** Where a frame's processing stands: the session, the frame's sticky
      danger flag, and the utterances emitted so far, oldest first. */
  datatype FrameState = FrameState(session: Session, dangerClose: bool, spoken: seq<string>)

  /** The low-light channel, run before any detection is looked at. */
  function StartFrame(s: Session, meanBrightness: int, now: int): FrameState {
    if meanBrightness < DarkThreshold && now - s.lastDark > DarkCooldown then
      FrameState(s.(lastDark := now), false, [LowLightMessage])
    else
      FrameState(s, false, [])
  }

  /** One detection of the frame: filter, classify, flag danger, arbitrate. */
  function Consider(width: int, now: int, st: FrameState, d: Detection): FrameState {
    if !Relevant(d) || !InFocus(width, d.box) then st
    else
      var danger := st.dangerClose || TooClose(d.box);
      var s := st.session;
      if danger then
        if now - s.lastSpeak > DangerCooldown then
          FrameState(s.(lastSpeak := now), true, st.spoken + [DangerMessage(d.name)])
        else
          FrameState(s, true, st.spoken)
      else if d.name != s.current || now - s.lastSpeak > FocusCooldown then
        FrameState(s.(lastSpeak := now, current := d.name), false, st.spoken + [d.name])
      else
        st
  }

  /** The detections of a frame, considered in order. */
  function ConsiderAll(width: int, now: int, st: FrameState, ds: seq<Detection>): FrameState {
    if ds == [] then st
    else Consider(width, now, ConsiderAll(width, now, st, ds[..|ds| - 1]), ds[|ds| - 1])
  }

  /** A whole frame: the low-light channel, then every detection. */
  function Frame(width: int, meanBrightness: int, now: int, s: Session, ds: seq<Detection>): FrameState {
    ConsiderAll(width, now, StartFrame(s, meanBrightness, now), ds)
  }

  /** A detection that can drive the object channel. */
  predicate Actionable(width: int, d: Detection) {
    Relevant(d) && InFocus(width, d.box)
  }

  /** A detection that sets the frame's danger flag. */
  predicate Hazard(width: int, d: Detection) {
    Actionable(width, d) && TooClose(d.box)
  }

  /** Number of actionable detections in a sequence. */
  function CountActionable(width: int, ds: seq<Detection>): nat {
    if ds == [] then 0
    else CountActionable(width, ds[..|ds| - 1]) + (if Actionable(width, ds[|ds| - 1]) then 1 else 0)
  }

  /** The detection loop unfolds one detection at a time from the end. */
  lemma ConsiderAllSnoc(width: int, now: int, st: FrameState, ds: seq<Detection>, d: Detection)
    ensures ConsiderAll(width, now, st, ds + [d]) == Consider(width, now, ConsiderAll(width, now, st, ds), d)
  {
  }

  // ---- The low-light channel ----

  /** "Low light detected." is spoken exactly when the frame is dark and the
      last warning is more than 15 seconds old; then only the warning time
      moves, to now. The channel never touches the object-channel state. */
  lemma StartFrameSpec(s: Session, meanBrightness: int, now: int)
    ensures var st := StartFrame(s, meanBrightness, now);
      var warn := meanBrightness < DarkThreshold && now - s.lastDark > DarkCooldown;
      !st.dangerClose &&
      st.session.lastSpeak == s.lastSpeak && st.session.current == s.current &&
      (warn ==> st.session.lastDark == now && st.spoken == [LowLightMessage]) &&
      (!warn ==> st.session == s && st.spoken == [])
  {
  }

  // ---- One detection ----

  /** A detection that fails the filter, or lies outside the focus band,
      changes nothing and emits nothing, however large it is. */
  lemma IgnoredDetection(width: int, now: int, st: FrameState, d: Detection)
    requires !Actionable(width, d)
    ensures Consider(width, now, st, d) == st
  {
  }

  /** The danger branch: taken by an in-focus detection when it is too close
      itself or an earlier one in the frame was. The warning naming this
      detection is spoken exactly when the last utterance is more than two
      seconds old; only the speech time moves, and the announced label is
      never changed. */
  lemma DangerBranch(width: int, now: int, st: FrameState, d: Detection)
    requires Actionable(width, d)
    requires st.dangerClose || TooClose(d.box)
    ensures var r := Consider(width, now, st, d);
      var s := st.session;
      r.dangerClose && r.session.current == s.current && r.session.lastDark == s.lastDark &&
      (now - s.lastSpeak > DangerCooldown ==>
        r.session.lastSpeak == now && r.spoken == st.spoken + [DangerMessage(d.name)]) &&
      (now - s.lastSpeak <= DangerCooldown ==> r.session == s && r.spoken == st.spoken)
  {
  }

  /** The focus branch: an in-focus detection, with no danger so far in the
      frame, is announced by its label exactly when the label differs from
      the one last announced or the last utterance is more than three seconds
      old; on announcing, the speech time and the announced label move, and
      otherwise nothing changes. */
  lemma FocusBranch(width: int, now: int, st: FrameState, d: Detection)
    requires Actionable(width, d)
    requires !st.dangerClose && !TooClose(d.box)
    ensures var r := Consider(width, now, st, d);
      var s := st.session;
      var announce := d.name != s.current || now - s.lastSpeak > FocusCooldown;
      !r.dangerClose &&
      (announce ==> r.session == Session(now, s.lastDark, d.name) && r.spoken == st.spoken + [d.name]) &&
      (!announce ==> r == st)
  {
  }

  // ---- A whole frame ----

  /** The object channel never reads back into or writes the low-light
      warning time, and only ever appends to the utterances. */
  lemma {:induction false} ConsiderAllKeepsDark(width: int, now: int, st: FrameState, ds: seq<Detection>)
    ensures ConsiderAll(width, now, st, ds).session.lastDark == st.session.lastDark
    ensures st.spoken <= ConsiderAll(width, now, st, ds).spoken
  {
    if ds != [] {
      ConsiderAllKeepsDark(width, now, st, ds[..|ds| - 1]);
    }
  }

  /** Each detection adds at most one utterance, and only actionable ones do. */
  lemma {:induction false} UtteranceBound(width: int, now: int, st: FrameState, ds: seq<Detection>)
    ensures |ConsiderAll(width, now, st, ds).spoken| <= |st.spoken| + CountActionable(width, ds)
  {
    if ds != [] {
      UtteranceBound(width, now, st, ds[..|ds| - 1]);
    }
  }

  /** A frame with no actionable detection leaves the object channel exactly
      as it was: in particular the announced label is kept, not cleared. */
  lemma {:induction false} QuietWithoutFocus(width: int, now: int, st: FrameState, ds: seq<Detection>)
    requires forall i :: 0 <= i < |ds| ==> !Actionable(width, ds[i])
    ensures ConsiderAll(width, now, st, ds) == st
  {
    if ds != [] {
      QuietWithoutFocus(width, now, st, ds[..|ds| - 1]);
    }
  }

  /** The danger flag, once set, stays set for the rest of the frame, and
      from then on the announced label does not change. */
  lemma {:induction false} DangerSticky(width: int, now: int, st: FrameState, ds: seq<Detection>)
    requires st.dangerClose
    ensures ConsiderAll(width, now, st, ds).dangerClose
    ensures ConsiderAll(width, now, st, ds).session.current == st.session.current
  {
    if ds != [] {
      DangerSticky(width, now, st, ds[..|ds| - 1]);
    }
  }

  /** The danger flag at the end of the detections is set exactly when it was
      set already or some detection is a hazard (relevant, in focus, too tall). */
  lemma {:induction false} DangerFlagIff(width: int, now: int, st: FrameState, ds: seq<Detection>)
    ensures ConsiderAll(width, now, st, ds).dangerClose <==>
      st.dangerClose || exists i :: 0 <= i < |ds| && Hazard(width, ds[i])
  {
    if ds != [] {
      var init := ds[..|ds| - 1];
      DangerFlagIff(width, now, st, init);
      if exists i :: 0 <= i < |init| && Hazard(width, init[i]) {
        var i :| 0 <= i < |init| && Hazard(width, init[i]);
        assert ds[i] == init[i];
      }
      if exists i :: 0 <= i < |ds| && Hazard(width, ds[i]) {
        var i :| 0 <= i < |ds| && Hazard(width, ds[i]);
        if i < |init| {
          assert init[i] == ds[i];
        }
      }
    }
  }

  /** Once the danger flag is up and the last utterance is at most two
      seconds old, the rest of the frame is silent and changes nothing. */
  lemma {:induction false} SilentUnderDanger(width: int, now: int, st: FrameState, ds: seq<Detection>)
    requires st.dangerClose && now - st.session.lastSpeak <= DangerCooldown
    ensures ConsiderAll(width, now, st, ds) == st
  {
    if ds != [] {
      SilentUnderDanger(width, now, st, ds[..|ds| - 1]);
    }
  }

  /** After a hazard, a frame whose clock reads the same instant throughout
      speaks nothing more: the hazard either spoke and moved the speech time
      to now, or found the two-second cooldown still running. */
  lemma {:induction false} HazardEndsSpeech(width: int, now: int, st: FrameState, d: Detection, rest: seq<Detection>)
    requires Hazard(width, d)
    ensures var mid := Consider(width, now, st, d);
      ConsiderAll(width, now, mid, rest) == mid
  {
    var mid := Consider(width, now, st, d);
    assert mid.dangerClose && now - mid.session.lastSpeak <= DangerCooldown;
    SilentUnderDanger(width, now, mid, rest);
  }

  /** Dropping the detections that fail the filter does not change the frame. */
  lemma {:induction false} FilterPreservesFrame(width: int, now: int, st: FrameState, ds: seq<Detection>)
    ensures ConsiderAll(width, now, st, Filter(ds)) == ConsiderAll(width, now, st, ds)
  {
    if ds != [] {
      var init, last := ds[..|ds| - 1], ds[|ds| - 1];
      FilterPreservesFrame(width, now, st, init);
      assert ds == init + [last];
      FilterSnoc(init, last);
      if Relevant(last) {
        ConsiderAllSnoc(width, now, st, Filter(init), last);
      } else {
        assert Filter(ds) == Filter(init);
      }
    }
  }

  /** The object channel of a frame does not depend on the low-light
      channel: whatever the brightness, the speech time, the announced label
      and the danger flag come out the same, and the object utterances follow
      the low-light warning, if any. */
  lemma {:induction false} ObjectChannelIndependent(width: int, now: int, st1: FrameState, st2: FrameState, ds: seq<Detection>)
    requires st1.dangerClose == st2.dangerClose
    requires st1.session.lastSpeak == st2.session.lastSpeak && st1.session.current == st2.session.current
    ensures var r1, r2 := ConsiderAll(width, now, st1, ds), ConsiderAll(width, now, st2, ds);
      st1.spoken <= r1.spoken && st2.spoken <= r2.spoken &&
      r1.dangerClose == r2.dangerClose &&
      r1.session.lastSpeak == r2.session.lastSpeak && r1.session.current == r2.session.current &&
      r1.spoken[|st1.spoken|..] == r2.spoken[|st2.spoken|..]
  {
    ConsiderAllKeepsDark(width, now, st1, ds);
    ConsiderAllKeepsDark(width, now, st2, ds);
    if ds != [] {
      var init, last := ds[..|ds| - 1], ds[|ds| - 1];
      ObjectChannelIndependent(width, now, st1, st2, init);
      ConsiderAllKeepsDark(width, now, st1, init);
      ConsiderAllKeepsDark(width, now, st2, init);
    }
  }
}
