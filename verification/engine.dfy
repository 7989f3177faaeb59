/** The running engine: the three session variables the main loop keeps
    between frames, and the per-frame update that changes them in place. */
module Engine {
  import opened Detection
  import opened Arbiter

  class AlertEngine {
    /** Clock reading of the last object utterance. */
    var lastSpeak: int
    /** Clock reading of the last low-light warning. */
    var lastDark: int
    /** Label last announced as the focused object, or empty. */
    var currentObject: string
    /** Everything handed to the speech engine so far, oldest first. */
    ghost var spoken: seq<string>

    /** The session variables as a value. */
    function State(): Session
      reads this
    {
      Session(lastSpeak, lastDark, currentObject)
    }

    /** Start-up: both timers at zero, nothing announced yet. */
    constructor ()
      ensures State() == Initial && spoken == []
    {
      lastSpeak, lastDark, currentObject := 0, 0, "";
      spoken := [];
    }

    /** Hands one utterance to the speech engine. */
    method Speak(text: string)
      modifies this`spoken
      ensures spoken == old(spoken) + [text]
    {
      spoken := spoken + [text];
    }

    /** Processes one frame: the low-light check, then every detection in
        detector order. Returns the frame's danger flag, which drives the red
        overlay. The new session, the flag and the utterances are those of
        the frame function, so every lemma about it applies here. */
    method ProcessFrame(width: int, meanBrightness: int, now: int, detections: seq<Detection>)
      returns (dangerClose: bool)
      modifies this
      ensures var f := Frame(width, meanBrightness, now, old(State()), detections);
        State() == f.session && dangerClose == f.dangerClose &&
        spoken == old(spoken) + f.spoken
      ensures lastSpeak == old(lastSpeak) || lastSpeak == now
      ensures lastDark == old(lastDark) || lastDark == now
    {
      var zoneLeft, zoneRight := ZoneLeft(width), ZoneRight(width);

      if meanBrightness < DarkThreshold && now - lastDark > DarkCooldown {
        Speak(LowLightMessage);
        lastDark := now;
      }

      dangerClose := false;
      ghost var start := StartFrame(old(State()), meanBrightness, now);
      ghost var before := old(spoken);
      assert State() == start.session && spoken == before + start.spoken;

      var i := 0;
      while i < |detections|
        invariant 0 <= i <= |detections|
        invariant var f := ConsiderAll(width, now, start, detections[..i]);
          State() == f.session && dangerClose == f.dangerClose && spoken == before + f.spoken
        invariant lastDark == start.session.lastDark
        invariant lastSpeak == old(lastSpeak) || lastSpeak == now
      {
        var d := detections[i];
        ConsiderAllSnoc(width, now, start, detections[..i], d);
        assert detections[..i + 1] == detections[..i] + [d];
        if Relevant(d) {
          var center := Center(d.box);
          if zoneLeft < center < zoneRight {
            if d.box.y2 - d.box.y1 > DangerHeight {
              dangerClose := true;
            }
            if dangerClose {
              if now - lastSpeak > DangerCooldown {
                Speak(DangerMessage(d.name));
                lastSpeak := now;
              }
            } else if d.name != currentObject || now - lastSpeak > FocusCooldown {
              Speak(d.name);
              lastSpeak := now;
              currentObject := d.name;
            }
          }
        }
        i := i + 1;
      }
      assert detections[..i] == detections;
    }
  }
}
