/** What holds in every reachable state of the lights HAL. */
module LightProofs {
  import opened JavaText
  import opened LightValues

  // ---- Brightness ----

  /** The backlight level lies between the smallest and largest colour channel. */
  lemma {:induction false} BrightnessBetweenChannels(light: Light)
    ensures var r, g, b := RedOf(light.color), GreenOf(light.color), BlueOf(light.color);
      && (r <= Brightness(light) || g <= Brightness(light) || b <= Brightness(light))
      && (Brightness(light) <= r || Brightness(light) <= g || Brightness(light) <= b)
      && 0 <= Brightness(light) <= 255
  {
  }

  // ---- Statuses ----

  /** The status a light asks of an LED: only orange lights both, otherwise red
      wins over green, and no alpha means off. */
  function StatusFor(light: Light, led: Led): int {
    var mode := if light.flashMode == FLASH_TIMED && light.flashOnMS != 0 && light.flashOffMS != 0
                then BLINKING else STEADY;
    var red := Alpha(light.color) != 0 && RedOf(light.color) != 0;
    var green := Alpha(light.color) != 0 && GreenOf(light.color) != 0;
    match led
    case Red => if red then mode else OFF
    case Green => if green && (!red || light.color == ORANGE) then mode else OFF
  }

  /** A light makes one call per LED, each asking for the light's status. */
  lemma {:induction false} CallsAskForStatus(light: Light)
    ensures var calls := SpeakerCalls(light);
      && calls[0].led != calls[1].led
      && (forall k :: 0 <= k < 2 ==> NowStatus(calls[k]) == StatusFor(light, calls[k].led))
      && (forall k :: 0 <= k < 2 && NowStatus(calls[k]) == BLINKING ==>
            calls[k].onMS == light.flashOnMS && calls[k].offMS == light.flashOffMS)
  {
  }

  lemma {:induction false} SpeakerInTwo(h: Hal, light: Light)
    ensures Speaker(h, light, 2) == Blink(Blink(h, SpeakerCalls(light)[0]), SpeakerCalls(light)[1])
    ensures Speaker(h, light, 1) == Blink(h, SpeakerCalls(light)[0])
  {
    assert Speaker(h, light, 1) == Blink(Speaker(h, light, 0), SpeakerCalls(light)[0]);
  }

  /** A light whose statuses are already set changes nothing. */
  lemma {:induction false} SpeakerIdle(h: Hal, light: Light)
    requires forall led :: h.Status(led) == StatusFor(light, led)
    ensures Speaker(h, light, 2) == h
  {
    CallsAskForStatus(light);
    SpeakerInTwo(h, light);
  }

  lemma {:induction false} SpeakerStatus(h: Hal, light: Light, led: Led)
    ensures Speaker(h, light, 2).Status(led) == StatusFor(light, led)
    ensures Speaker(h, light, 2) == h.(red := StatusFor(light, Red), green := StatusFor(light, Green),
                                       log := Speaker(h, light, 2).log)
  {
    CallsAskForStatus(light);
    SpeakerInTwo(h, light);
  }

  lemma {:induction false} UnlitTurnsOff(light: Light, led: Led)
    requires !IsLit(light)
    ensures StatusFor(light, led) == OFF
  {
    var alpha := light.color / 0x1000000;
    assert light.color == 0x1000000 * alpha;
    assert light.color / 0x10000 == 0x100 * alpha && light.color / 0x100 == 0x10000 * alpha;
  }

  lemma {:induction false} ShowAllKeepsRest(h: Hal, lights: seq<Light>)
    ensures ShowAll(h, lights)
         == h.(red := ShowAll(h, lights).red, green := ShowAll(h, lights).green, log := ShowAll(h, lights).log)
    ensures lights != [] ==> forall led :: ShowAll(h, lights).Status(led) == StatusFor(lights[|lights| - 1], led)
    ensures lights == [] ==> ShowAll(h, lights) == h
  {
    if lights != [] {
      var front := lights[..|lights| - 1];
      ShowAllKeepsRest(h, front);
      forall led ensures ShowAll(h, lights).Status(led) == StatusFor(lights[|lights| - 1], led) {
        SpeakerStatus(ShowAll(h, front), lights[|lights| - 1], led);
      }
      SpeakerStatus(ShowAll(h, front), lights[|lights| - 1], Red);
    }
  }

  function Effective(battery: Light, notification: Light): Light {
    if IsLit(battery) then battery else notification
  }

  function LastBattery(events: seq<Event>): Light {
    if events == [] then DARK
    else if events[|events| - 1].SetBattery? then events[|events| - 1].light
    else LastBattery(events[..|events| - 1])
  }

  function LastNotification(events: seq<Event>): Light {
    if events == [] then DARK
    else if events[|events| - 1].SetNotifications? then events[|events| - 1].light
    else LastNotification(events[..|events| - 1])
  }

  lemma {:induction false} PreparedFields(h: Hal, e: Event)
    ensures var p := Prepare(h, e);
      && p.battery == (if e.SetBattery? then e.light else h.battery)
      && p.notification == (if e.SetNotifications? then e.light else h.notification)
      && p.red == h.red && p.green == h.green && p.haveTrackball == h.haveTrackball && p.trackball == h.trackball
  {
  }

  /** The last light an event shows is the one in effect afterwards. */
  lemma {:induction false} LastShown(h: Hal, e: Event)
    ensures var p := Prepare(h, e);
      if e.SetBattery? || e.SetNotifications?
      then Shown(h, e) != [] && Shown(h, e)[|Shown(h, e)| - 1] == Effective(p.battery, p.notification)
      else Shown(h, e) == []
  {
  }

  lemma {:induction false} ApplyStatus(h: Hal, e: Event, led: Led)
    ensures var after, p := Apply(h, e), Prepare(h, e);
      && after == p.(red := after.red, green := after.green, log := after.log)
      && after.Status(led) == (if e.SetBattery? || e.SetNotifications?
                               then StatusFor(Effective(p.battery, p.notification), led) else h.Status(led))
  {
    ShowAllKeepsRest(Prepare(h, e), Shown(h, e));
    LastShown(h, e);
    PreparedFields(h, e);
  }

  /** After every run the LED statuses depend only on the light in effect: the
      last battery light if it is lit, else the last notification. */
  lemma {:induction false} StatusesForgetHistory(haveTrackball: bool, events: seq<Event>, led: Led)
    ensures var h := Run(haveTrackball, events);
      && h.battery == LastBattery(events) && h.notification == LastNotification(events)
      && h.Status(led) == StatusFor(Effective(LastBattery(events), LastNotification(events)), led)
  {
    if events == [] {
      UnlitTurnsOff(DARK, led);
    } else {
      var before := Run(haveTrackball, events[..|events| - 1]);
      StatusesForgetHistory(haveTrackball, events[..|events| - 1], led);
      ApplyStatus(before, events[|events| - 1], led);
      PreparedFields(before, events[|events| - 1]);
    }
  }

  // ---- Exclusion between any two blink calls ----

  datatype Point = Point(light: Light, state: Hal)

  function PointsOf(h: Hal, lights: seq<Light>): seq<Point> {
    if lights == [] then []
    else
      var front := lights[..|lights| - 1];
      var last := lights[|lights| - 1];
      PointsOf(h, front) + [Point(last, Speaker(ShowAll(h, front), last, 1)),
                            Point(last, Speaker(ShowAll(h, front), last, 2))]
  }

  /** The state after every single blink call of a run, with the light that
      caused the call. */
  function Points(haveTrackball: bool, events: seq<Event>): seq<Point> {
    if events == [] then []
    else
      var front := events[..|events| - 1];
      var before := Run(haveTrackball, front);
      var e := events[|events| - 1];
      Points(haveTrackball, front) + PointsOf(Prepare(before, e), Shown(before, e))
  }

  lemma {:induction false} SpeakerExclusion(h: Hal, light: Light)
    ensures Speaker(h, light, 1).BothOn() ==> light.color == ORANGE
    ensures Speaker(h, light, 2).BothOn() <==> light.color == ORANGE
  {
  }

  lemma {:induction false} PointsOfExclusion(h: Hal, lights: seq<Light>, i: nat)
    requires i < |PointsOf(h, lights)|
    ensures PointsOf(h, lights)[i].state.BothOn() ==> PointsOf(h, lights)[i].light.color == ORANGE
  {
    var front := lights[..|lights| - 1];
    if i < |PointsOf(h, front)| {
      PointsOfExclusion(h, front, i);
    } else {
      SpeakerExclusion(ShowAll(h, front), lights[|lights| - 1]);
    }
  }

  /** Red and green are never both on after any blink call of any run, unless
      the light being shown is exactly orange: off always comes before on. */
  lemma {:induction false} NeverBothUnlessOrange(haveTrackball: bool, events: seq<Event>, i: nat)
    requires i < |Points(haveTrackball, events)|
    ensures var p := Points(haveTrackball, events)[i]; p.state.BothOn() ==> p.light.color == ORANGE
  {
    var front := events[..|events| - 1];
    var before := Run(haveTrackball, front);
    var e := events[|events| - 1];
    if i < |Points(haveTrackball, front)| {
      NeverBothUnlessOrange(haveTrackball, front, i);
    } else {
      PointsOfExclusion(Prepare(before, e), Shown(before, e), i - |Points(haveTrackball, front)|);
    }
  }

  // ---- Cache and files ----

  /** What the cached status of an LED says about its files. */
  ghost predicate CacheAgrees(h: Hal, led: Led) {
    && (h.Status(led) == OFF ==> Content(h.log, BrightnessFile(led)) in {None, Some(Number(0))})
    && (h.Status(led) == BLINKING ==>
          && Content(h.log, TriggerFile(led)) == Some(Text("timer"))
          && Content(h.log, DelayOnFile(led)).Some? && Content(h.log, DelayOnFile(led)).value.Number?
          && Content(h.log, DelayOnFile(led)).value.n != 0
          && Content(h.log, DelayOffFile(led)).Some? && Content(h.log, DelayOffFile(led)).value.Number?
          && Content(h.log, DelayOffFile(led)).value.n != 0)
    && (h.Status(led) == STEADY ==>
          && Content(h.log, TriggerFile(led)) == Some(Text("none"))
          && Content(h.log, BrightnessFile(led)) == Some(Number(255)))
    && OFF <= h.Status(led) <= STEADY
  }

  lemma {:induction false} ContentOfTwo(a: Write, b: Write, file: File)
    ensures Content([a, b], file)
      == if b.file == file then Some(b.value) else if a.file == file then Some(a.value) else None
  {
    assert [a, b][..1] == [a] && [a][..0] == [];
    assert Content([a], file) == if a.file == file then Some(a.value) else None;
  }

  lemma {:induction false} ContentOfThree(a: Write, b: Write, c: Write, file: File)
    ensures Content([a, b, c], file) == if c.file == file then Some(c.value) else Content([a, b], file)
    ensures Content([a, b], file)
      == if b.file == file then Some(b.value) else if a.file == file then Some(a.value) else None
  {
    assert [a, b, c][..2] == [a, b];
    ContentOfTwo(a, b, file);
  }

  lemma {:induction false} BlinkWritesContent(call: BlinkCall, file: File)
    ensures Content(BlinkWrites(call), file) ==
      if file == BrightnessFile(call.led) && NowStatus(call) == OFF then Some(Number(0))
      else if file == BrightnessFile(call.led) && NowStatus(call) == STEADY then Some(Number(255))
      else if file == TriggerFile(call.led) && NowStatus(call) != OFF
        then Some(Text(if NowStatus(call) == BLINKING then "timer" else "none"))
      else if file == DelayOnFile(call.led) && NowStatus(call) == BLINKING then Some(Number(call.onMS))
      else if file == DelayOffFile(call.led) && NowStatus(call) == BLINKING then Some(Number(call.offMS))
      else None
  {
    var ws := BlinkWrites(call);
    if |ws| == 3 { ContentOfThree(ws[0], ws[1], ws[2], file); }
    else if |ws| == 2 { ContentOfTwo(ws[0], ws[1], file); }
  }

  lemma {:induction false} BlinkKeepsAgreement(h: Hal, call: BlinkCall, led: Led)
    requires CacheAgrees(h, led)
    ensures CacheAgrees(Blink(h, call), led)
  {
    if h.Status(call.led) != NowStatus(call) {
      forall file
        ensures Content(Blink(h, call).log, file) ==
          if Content(BlinkWrites(call), file).Some? then Content(BlinkWrites(call), file) else Content(h.log, file)
      {
        ContentOfAppend(h.log, BlinkWrites(call), file);
      }
      BlinkWritesContent(call, BrightnessFile(led));
      BlinkWritesContent(call, TriggerFile(led));
      BlinkWritesContent(call, DelayOnFile(led));
      BlinkWritesContent(call, DelayOffFile(led));
    }
  }

  lemma {:induction false} ShowAllKeepsAgreement(h: Hal, lights: seq<Light>, led: Led)
    requires CacheAgrees(h, led)
    ensures CacheAgrees(ShowAll(h, lights), led)
  {
    if lights != [] {
      var front := ShowAll(h, lights[..|lights| - 1]);
      var last := lights[|lights| - 1];
      ShowAllKeepsAgreement(h, lights[..|lights| - 1], led);
      assert Speaker(front, last, 1) == Blink(Speaker(front, last, 0), SpeakerCalls(last)[0]);
      BlinkKeepsAgreement(front, SpeakerCalls(last)[0], led);
      BlinkKeepsAgreement(Speaker(front, last, 1), SpeakerCalls(last)[1], led);
    }
  }

  /** Preparing an event touches no file of the two LEDs. */
  lemma {:induction false} PrepareContent(h: Hal, e: Event, file: File)
    requires file != LcdFile && file != TrackballFile
    ensures Content(Prepare(h, e).log, file) == Content(h.log, file)
    ensures Prepare(h, e).red == h.red && Prepare(h, e).green == h.green
  {
  }

  /** In every reachable state the caches tell the truth about the files. */
  lemma {:induction false} CachesAgreeInEveryRun(haveTrackball: bool, events: seq<Event>, led: Led)
    ensures CacheAgrees(Run(haveTrackball, events), led)
  {
    if events != [] {
      var before := Run(haveTrackball, events[..|events| - 1]);
      var e := events[|events| - 1];
      CachesAgreeInEveryRun(haveTrackball, events[..|events| - 1], led);
      PrepareContent(before, e, BrightnessFile(led));
      PrepareContent(before, e, TriggerFile(led));
      PrepareContent(before, e, DelayOnFile(led));
      PrepareContent(before, e, DelayOffFile(led));
      ShowAllKeepsAgreement(Prepare(before, e), Shown(before, e), led);
    }
  }

  // ---- Delays ----

  ghost predicate DelaysAre(h: Hal, led: Led, light: Light) {
    && Content(h.log, DelayOnFile(led)) == Some(Number(light.flashOnMS))
    && Content(h.log, DelayOffFile(led)) == Some(Number(light.flashOffMS))
  }

  lemma {:induction false} BlinkDelays(h: Hal, call: BlinkCall, led: Led)
    ensures var after := Blink(h, call);
      if call.led == led && NowStatus(call) == BLINKING && h.Status(led) != BLINKING then
        && Content(after.log, DelayOnFile(led)) == Some(Number(call.onMS))
        && Content(after.log, DelayOffFile(led)) == Some(Number(call.offMS))
      else
        && Content(after.log, DelayOnFile(led)) == Content(h.log, DelayOnFile(led))
        && Content(after.log, DelayOffFile(led)) == Content(h.log, DelayOffFile(led))
  {
    BlinkWritesContent(call, DelayOnFile(led));
    BlinkWritesContent(call, DelayOffFile(led));
    ContentOfAppend(h.log, BlinkWrites(call), DelayOnFile(led));
    ContentOfAppend(h.log, BlinkWrites(call), DelayOffFile(led));
  }

  /** Showing a light that makes an LED blink sets its delays exactly when it
      was not already blinking; otherwise the cache drops the change. */
  lemma {:induction false} SpeakerDelays(h: Hal, light: Light, led: Led)
    ensures var after := Speaker(h, light, 2);
      if StatusFor(light, led) == BLINKING && h.Status(led) != BLINKING then DelaysAre(after, led, light)
      else
        && Content(after.log, DelayOnFile(led)) == Content(h.log, DelayOnFile(led))
        && Content(after.log, DelayOffFile(led)) == Content(h.log, DelayOffFile(led))
  {
    var calls := SpeakerCalls(light);
    CallsAskForStatus(light);
    SpeakerInTwo(h, light);
    BlinkDelays(h, calls[0], led);
    BlinkDelays(Blink(h, calls[0]), calls[1], led);
  }

  lemma {:induction false} ShowTwo(h: Hal, a: Light, b: Light)
    ensures ShowAll(h, [a]) == Speaker(h, a, 2)
    ensures ShowAll(h, [a, b]) == Speaker(Speaker(h, a, 2), b, 2)
    ensures ShowAll(h, [a, a, b]) == Speaker(Speaker(Speaker(h, a, 2), a, 2), b, 2)
    ensures ShowAll(h, [a, a]) == Speaker(Speaker(h, a, 2), a, 2)
  {
    assert [a][..0] == [] && [a, b][..1] == [a] && [a, a, b][..2] == [a, a] && [a, a][..1] == [a];
  }

  lemma {:induction false} ShowAllSplit(h: Hal, lights: seq<Light>, last: Light)
    ensures ShowAll(h, lights + [last]) == Speaker(ShowAll(h, lights), last, 2)
  {
  }

  /** While the battery light is unlit, every blinking LED has exactly the
      current notification's delays. */
  lemma {:induction false} UnlitBatteryShowsNotificationDelays(haveTrackball: bool, events: seq<Event>, led: Led)
    requires !IsLit(LastBattery(events)) && Run(haveTrackball, events).Status(led) == BLINKING
    ensures DelaysAre(Run(haveTrackball, events), led, LastNotification(events))
  {
    if events != [] {
      var front := events[..|events| - 1];
      var e := events[|events| - 1];
      var before := Run(haveTrackball, front);
      var h := Prepare(before, e);
      StatusesForgetHistory(haveTrackball, front, led);
      StatusesForgetHistory(haveTrackball, events, led);
      if e.SetBattery? || e.SetNotifications? {
        var battery, notification := LastBattery(events), LastNotification(events);
        var lights := (if e.SetBattery? && haveTrackball then [battery] else []) + [battery];
        TrackballIsConstant(haveTrackball, front);
        assert Shown(before, e) == lights + [notification];
        ShowAllSplit(h, lights, notification);
        ShowAllKeepsRest(h, lights);
        UnlitTurnsOff(battery, led);
        SpeakerDelays(ShowAll(h, lights), notification, led);
      } else {
        PrepareContent(before, e, DelayOnFile(led));
        PrepareContent(before, e, DelayOffFile(led));
        UnlitBatteryShowsNotificationDelays(haveTrackball, front, led);
      }
    }
  }

  /** With a lit battery light that makes an LED blink, the delays are the
      light's exactly when the LED was not blinking before, or had them already. */
  lemma {:induction false} LitBatteryDelays(h: Hal, light: Light, led: Led)
    requires IsLit(light) && StatusFor(light, led) == BLINKING
    ensures DelaysAre(Apply(h, SetBattery(light)), led, light)
      <==> h.Status(led) != BLINKING || DelaysAre(h, led, light)
  {
    var p := Prepare(h, SetBattery(light));
    ShowTwo(p, light, light);
    assert Shown(h, SetBattery(light)) == if h.haveTrackball then [light, light] else [light];
    SpeakerDelays(p, light, led);
    SpeakerStatus(p, light, led);
    SpeakerDelays(Speaker(p, light, 2), light, led);
  }

  /** Of these lights, the last that turned the LED from not blinking to
      blinking, or else the one that did so before. */
  function StarterOf(h: Hal, lights: seq<Light>, led: Led, before: Light): Light {
    if lights == [] then before
    else
      var front := lights[..|lights| - 1];
      var last := lights[|lights| - 1];
      if StatusFor(last, led) == BLINKING && ShowAll(h, front).Status(led) != BLINKING then last
      else StarterOf(h, front, led, before)
  }

  /** The light of a run that last turned the LED from not blinking to blinking. */
  function Starter(haveTrackball: bool, events: seq<Event>, led: Led): Light {
    if events == [] then DARK
    else
      var before := Run(haveTrackball, events[..|events| - 1]);
      var e := events[|events| - 1];
      StarterOf(Prepare(before, e), Shown(before, e), led, Starter(haveTrackball, events[..|events| - 1], led))
  }

  lemma {:induction false} ShowAllKeepsStarter(h: Hal, lights: seq<Light>, led: Led, before: Light)
    requires h.Status(led) == BLINKING ==> DelaysAre(h, led, before)
    ensures ShowAll(h, lights).Status(led) == BLINKING ==>
      DelaysAre(ShowAll(h, lights), led, StarterOf(h, lights, led, before))
  {
    if lights != [] {
      var front := lights[..|lights| - 1];
      var last := lights[|lights| - 1];
      ShowAllKeepsStarter(h, front, led, before);
      SpeakerStatus(ShowAll(h, front), last, led);
      SpeakerDelays(ShowAll(h, front), last, led);
    }
  }

  /** In every run the delay files of a blinking LED hold the delays of the light
      that last turned it from not blinking to blinking, however many others
      were shown since. */
  lemma {:induction false} DelaysAreTheStarters(haveTrackball: bool, events: seq<Event>, led: Led)
    ensures var h := Run(haveTrackball, events);
      h.Status(led) == BLINKING ==> DelaysAre(h, led, Starter(haveTrackball, events, led))
  {
    if events != [] {
      var front := events[..|events| - 1];
      var before := Run(haveTrackball, front);
      var e := events[|events| - 1];
      DelaysAreTheStarters(haveTrackball, front, led);
      PreparedFields(before, e);
      PrepareContent(before, e, DelayOnFile(led));
      PrepareContent(before, e, DelayOffFile(led));
      ShowAllKeepsStarter(Prepare(before, e), Shown(before, e), led, Starter(haveTrackball, front, led));
    }
  }

  /** While the battery light is lit, a notification writes no LED file. */
  lemma {:induction false} LitBatteryHidesNotifications(haveTrackball: bool, events: seq<Event>, light: Light,
                                                        file: File)
    requires IsLit(LastBattery(events)) && file != LcdFile && file != TrackballFile
    ensures var h := Run(haveTrackball, events);
      && Content(Apply(h, SetNotifications(light)).log, file) == Content(h.log, file)
      && Apply(h, SetNotifications(light)).log == Prepare(h, SetNotifications(light)).log
  {
    var h := Run(haveTrackball, events);
    var e := SetNotifications(light);
    var p := Prepare(h, e);
    StatusesForgetHistory(haveTrackball, events, Red);
    StatusesForgetHistory(haveTrackball, events, Green);
    PrepareContent(h, e, file);
    PreparedFields(h, e);
    ShowTwo(p, h.battery, h.battery);
    assert forall l :: p.Status(l) == StatusFor(h.battery, l);
    SpeakerIdle(p, h.battery);
  }

  // ---- Trackball ----

  lemma {:induction false} TrackballIsConstant(haveTrackball: bool, events: seq<Event>)
    ensures Run(haveTrackball, events).haveTrackball == haveTrackball
    ensures Run(haveTrackball, events).trackball == -1
  {
    if events != [] {
      var before := Run(haveTrackball, events[..|events| - 1]);
      TrackballIsConstant(haveTrackball, events[..|events| - 1]);
      ApplyStatus(before, events[|events| - 1], Red);
      PreparedFields(before, events[|events| - 1]);
    }
  }

  /** Showing lights touches neither the backlight file nor the trackball file. */
  lemma {:induction false} ShowAllSkips(h: Hal, lights: seq<Light>, file: File)
    requires file == LcdFile || file == TrackballFile
    ensures Content(ShowAll(h, lights).log, file) == Content(h.log, file)
  {
    if lights != [] {
      var front := ShowAll(h, lights[..|lights| - 1]);
      var calls := SpeakerCalls(lights[|lights| - 1]);
      ShowAllSkips(h, lights[..|lights| - 1], file);
      BlinkWritesContent(calls[0], file);
      BlinkWritesContent(calls[1], file);
      var one := Speaker(front, lights[|lights| - 1], 1);
      assert one == Blink(Speaker(front, lights[|lights| - 1], 0), calls[0]);
      ContentOfAppend(front.log, BlinkWrites(calls[0]), file);
      ContentOfAppend(one.log, BlinkWrites(calls[1]), file);
    }
  }

  predicate Handles(e: Event) { !e.SetBattery? }

  ghost predicate TrackballShows(h: Hal) {
    Content(h.log, TrackballFile) == Some(Number(TrackballMode(h))) <==> h.attention != -1
  }

  lemma {:induction false} TrackballStep(h: Hal, e: Event)
    requires h.haveTrackball && h.trackball == -1
    requires Content(h.log, TrackballFile) != Some(Number(-1))
    ensures var after := Apply(h, e);
      && Content(after.log, TrackballFile) != Some(Number(-1))
      && (Handles(e) || TrackballShows(h) ==> TrackballShows(after))
  {
    var p := Prepare(h, e);
    ShowAllSkips(p, Shown(h, e), TrackballFile);
    ApplyStatus(h, e, Red);
    TrackballPrepared(h, e);
  }

  lemma {:induction false} TrackballKeepsShowing(h: Hal, e: Event)
    requires h.haveTrackball && h.trackball == -1
    requires Content(h.log, TrackballFile) != Some(Number(-1))
    requires Handles(e) || TrackballShows(h)
    ensures TrackballShows(Apply(h, e))
  {
    TrackballStep(h, e);
  }

  lemma {:induction false} TrackballPrepared(h: Hal, e: Event)
    requires h.haveTrackball && h.trackball == -1
    ensures var p := Prepare(h, e);
      Content(p.log, TrackballFile)
      == if Handles(e) && TrackballMode(p) != -1 then Some(Number(TrackballMode(p))) else Content(h.log, TrackballFile)
    ensures !Handles(e) ==> TrackballMode(Prepare(h, e)) == TrackballMode(h) && Prepare(h, e).attention == h.attention
  {
  }

  lemma {:induction false} TrackballNeverMinusOne(events: seq<Event>)
    ensures Content(Run(true, events).log, TrackballFile) != Some(Number(-1))
  {
    if events != [] {
      var front := events[..|events| - 1];
      TrackballNeverMinusOne(front);
      TrackballIsConstant(true, front);
      TrackballStep(Run(true, front), events[|events| - 1]);
    }
  }

  /** With a trackball, once some event other than a battery light has come, the
      trackball file shows the attention value in every reachable state, or 0 for
      the value 7 while the backlight is on; but it never shows -1. */
  lemma {:induction false} TrackballFileExact(events: seq<Event>, i: nat)
    requires i < |events| && !events[i].SetBattery?
    ensures var h := Run(true, events);
      var mode := if h.attention == 7 && h.backlight != 0 then 0 else h.attention;
      && (h.attention != -1 ==> Content(h.log, TrackballFile) == Some(Number(mode)))
      && Content(h.log, TrackballFile) != Some(Number(-1))
  {
    TrackballShowsMode(events, i);
    TrackballNeverMinusOne(events);
  }

  lemma {:induction false} TrackballShowsMode(events: seq<Event>, i: nat)
    requires i < |events| && Handles(events[i])
    ensures TrackballShows(Run(true, events))
  {
    var front := events[..|events| - 1];
    var before := Run(true, front);
    var e := events[|events| - 1];
    TrackballNeverMinusOne(front);
    TrackballIsConstant(true, front);
    if i < |front| {
      assert Handles(front[i]);
      TrackballShowsMode(front, i);
    } else {
      assert Handles(e);
    }
    TrackballKeepsShowing(before, e);
    assert Run(true, events) == Apply(before, e);
  }
}
