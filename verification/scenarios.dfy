/** Concrete frames on a 640-pixel-wide camera (the focus band is then the
    open interval 190..450), showing how the arbitration behaves over one and
    over several frames, including where its behaviour depends on the order
    in which the detector reports boxes. Clock readings are milliseconds. */
module Scenarios {
  import opened Detection
  import opened Arbiter

  const Width: int := 640
  const Bright: int := 128

  /** A small box centred in the band. */
  const Near: Box := Box(300, 100, 340, 200)
  /** A box centred in the band and 420 pixels tall. */
  const Tall: Box := Box(280, 10, 360, 430)

  /** A confident detection of the given object. */
  function Seen(name: string, b: Box): Detection { Detection(name, 900, b) }

  /** A frame's detection loop over two boxes, unfolded. */
  lemma TwoDetections(now: int, st: FrameState, a: Detection, b: Detection)
    ensures ConsiderAll(Width, now, st, [a, b]) ==
      Consider(Width, now, Consider(Width, now, st, a), b)
  {
    assert [a, b] == [a] + [b];
    ConsiderAllSnoc(Width, now, st, [a], b);
    ConsiderAllSnoc(Width, now, st, [], a);
    assert [] + [a] == [a];
  }

  /** A frame's detection loop over one box, unfolded. */
  lemma OneDetection(now: int, st: FrameState, a: Detection)
    ensures ConsiderAll(Width, now, st, [a]) == Consider(Width, now, st, a)
  {
  }

  /** Two harmless in-focus objects with different labels are both
      announced in the same frame: a frame can emit several utterances. */
  lemma SeveralUtterancesInOneFrame(s: Session, now: int)
    requires s.current != "cup"
    ensures Frame(Width, Bright, now, s, [Seen("cup", Near), Seen("bottle", Near)]).spoken
      == ["cup", "bottle"]
  {
    TwoDetections(now, StartFrame(s, Bright, now), Seen("cup", Near), Seen("bottle", Near));
  }

  /** Danger does not win regardless of order. A harmless object reported
      first is announced, and the tall one after it is silenced by the speech
      time just written; reported the other way round, only the warning is
      spoken, and the harmless object, now in the danger branch, is silenced
      too. The danger flag is up either way. */
  lemma DangerDependsOnOrder(s: Session, now: int)
    requires now - s.lastSpeak > FocusCooldown
    ensures var f := Frame(Width, Bright, now, s, [Seen("cup", Near), Seen("person", Tall)]);
      f.spoken == ["cup"] && f.dangerClose && f.session.current == "cup"
    ensures var f := Frame(Width, Bright, now, s, [Seen("person", Tall), Seen("cup", Near)]);
      f.spoken == [DangerMessage("person")] && f.dangerClose && f.session.current == s.current
  {
    TwoDetections(now, StartFrame(s, Bright, now), Seen("cup", Near), Seen("person", Tall));
    TwoDetections(now, StartFrame(s, Bright, now), Seen("person", Tall), Seen("cup", Near));
  }

  /** A bottle announced at time t is not announced again 2.9 seconds later,
      but is 3.1 seconds later. */
  lemma FocusCooldownScenario(s: Session, t: int)
    requires s.current != "bottle" || t - s.lastSpeak > FocusCooldown
    ensures var f1 := Frame(Width, Bright, t, s, [Seen("bottle", Near)]);
      f1.spoken == ["bottle"] &&
      Frame(Width, Bright, t + 2900, f1.session, [Seen("bottle", Near)]).spoken == [] &&
      Frame(Width, Bright, t + 3100, f1.session, [Seen("bottle", Near)]).spoken == ["bottle"]
  {
    var f1 := Frame(Width, Bright, t, s, [Seen("bottle", Near)]);
    OneDetection(t, StartFrame(s, Bright, t), Seen("bottle", Near));
    OneDetection(t + 2900, StartFrame(f1.session, Bright, t + 2900), Seen("bottle", Near));
    OneDetection(t + 3100, StartFrame(f1.session, Bright, t + 3100), Seen("bottle", Near));
  }

  /** A new label is announced at once, well inside the cooldown. */
  lemma LabelChangeOverride(s: Session, t: int)
    requires s.current != "bottle" || t - s.lastSpeak > FocusCooldown
    ensures var f1 := Frame(Width, Bright, t, s, [Seen("bottle", Near)]);
      Frame(Width, Bright, t + 100, f1.session, [Seen("cup", Near)]).spoken == ["cup"]
  {
    var f1 := Frame(Width, Bright, t, s, [Seen("bottle", Near)]);
    OneDetection(t, StartFrame(s, Bright, t), Seen("bottle", Near));
    OneDetection(t + 100, StartFrame(f1.session, Bright, t + 100), Seen("cup", Near));
  }

  /** The announced label is kept while the object is out of view: a bottle
      that disappears for a frame and comes back two seconds after it was
      announced is not announced again. */
  lemma StaleLabelDebounces(s: Session, t: int)
    requires s.current != "bottle" || t - s.lastSpeak > FocusCooldown
    ensures var f1 := Frame(Width, Bright, t, s, [Seen("bottle", Near)]);
      var f2 := Frame(Width, Bright, t + 1000, f1.session, []);
      f2.session.current == "bottle" &&
      Frame(Width, Bright, t + 2000, f2.session, [Seen("bottle", Near)]).spoken == []
  {
    var f1 := Frame(Width, Bright, t, s, [Seen("bottle", Near)]);
    OneDetection(t, StartFrame(s, Bright, t), Seen("bottle", Near));
    var f2 := Frame(Width, Bright, t + 1000, f1.session, []);
    OneDetection(t + 2000, StartFrame(f2.session, Bright, t + 2000), Seen("bottle", Near));
  }

  /** A dark frame with an in-focus object whose cooldown has expired emits
      both the low-light warning and the label, in that order. */
  lemma DarknessAndFocusTogether(s: Session, now: int)
    requires now - s.lastDark > DarkCooldown && now - s.lastSpeak > FocusCooldown
    ensures Frame(Width, 10, now, s, [Seen("bottle", Near)]).spoken == [LowLightMessage, "bottle"]
  {
    OneDetection(now, StartFrame(s, 10, now), Seen("bottle", Near));
  }

  /** The danger flag of a frame with one in-focus box: down at a height of
      exactly 400 pixels, up at 401. */
  lemma DangerHeightScenario(s: Session, now: int)
    ensures !Frame(Width, Bright, now, s, [Seen("cup", Box(300, 0, 340, 400))]).dangerClose
    ensures Frame(Width, Bright, now, s, [Seen("cup", Box(300, 0, 340, 401))]).dangerClose
  {
    OneDetection(now, StartFrame(s, Bright, now), Seen("cup", Box(300, 0, 340, 400)));
    OneDetection(now, StartFrame(s, Bright, now), Seen("cup", Box(300, 0, 340, 401)));
  }

  /** A huge box outside the band, or a target below the confidence
      threshold, or an object that is not a target, is silent. */
  lemma IgnoredScenarios(s: Session, now: int)
    ensures Frame(Width, Bright, now, s, [Seen("person", Box(0, 0, 380, 479))]).spoken == []
    ensures Frame(Width, Bright, now, s, [Detection("bottle", 550, Near)]).spoken == []
    ensures Frame(Width, Bright, now, s, [Seen("dog", Near)]).spoken == []
  {
    OneDetection(now, StartFrame(s, Bright, now), Seen("person", Box(0, 0, 380, 479)));
    OneDetection(now, StartFrame(s, Bright, now), Detection("bottle", 550, Near));
    OneDetection(now, StartFrame(s, Bright, now), Seen("dog", Near));
  }
}
