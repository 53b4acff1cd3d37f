/** What the light files hold and in what order they are written, read off the
    lights of a run. */
module LightFiles {
  import opened JavaText
  import opened LightValues
  import opened LightProofs

  // ---- Colours ----

  /** A colour is its four channels. */
  lemma {:induction false} ColorIsItsChannels(c: Color)
    ensures c == 0x1000000 * Alpha(c) + 0x10000 * RedOf(c) + 0x100 * GreenOf(c) + BlueOf(c)
    ensures 0 <= Alpha(c) < 0x100 && 0 <= RedOf(c) < 0x100 && 0 <= GreenOf(c) < 0x100 && 0 <= BlueOf(c) < 0x100
  {
    assert c / 0x10000 == (c / 0x100) / 0x100 && c / 0x1000000 == ((c / 0x100) / 0x100) / 0x100;
  }

  /** These are the channels of the colour. */
  ghost predicate HasChannels(c: Color, r: int, g: int, b: int) {
    && 0 <= r < 0x100 && 0 <= g < 0x100 && 0 <= b < 0x100
    && c % 0x1000000 == 0x10000 * r + 0x100 * g + b
  }

  lemma {:induction false} ChannelsAre(c: Color, r: int, g: int, b: int)
    requires HasChannels(c, r, g, b)
    ensures RedOf(c) == r && GreenOf(c) == g && BlueOf(c) == b
  {
    var rest := c % 0x1000000;
    assert c == 0x1000000 * (c / 0x1000000) + rest;
    assert c / 0x10000 == 0x100 * (c / 0x1000000) + r;
    assert c / 0x100 == 0x10000 * (c / 0x1000000) + 0x100 * r + g;
  }

  /** A light counts as lit when a channel is not 0, whatever its alpha; a blue
      one is lit though neither LED shows it. */
  lemma {:induction false} LitExactly(light: Light, r: int, g: int, b: int)
    requires HasChannels(light.color, r, g, b)
    ensures IsLit(light) <==> r != 0 || g != 0 || b != 0
    ensures r == 0 && g == 0 && b != 0 ==>
      IsLit(light) && StatusFor(light, Red) == OFF && StatusFor(light, Green) == OFF
  {
    ChannelsAre(light.color, r, g, b);
  }

  /** What the LEDs are after every run, from the channels of the light in effect:
      1 when blinking, 2 when steady. Only orange shows on both, a light without
      alpha on neither, and only timed flashing blinks. */
  lemma {:induction false} LedsShowTheLight(haveTrackball: bool, events: seq<Event>, light: Light,
                                            r: int, g: int, b: int)
    requires light == (if LastBattery(events).color % 0x1000000 != 0 then LastBattery(events)
                       else LastNotification(events))
    requires HasChannels(light.color, r, g, b)
    ensures var h := Run(haveTrackball, events);
      var mode := if light.flashMode == 1 && light.flashOnMS != 0 && light.flashOffMS != 0 then 1 else 2;
      && h.red == (if light.color >= 0x1000000 && r != 0 then mode else 0)
      && h.green == if light.color >= 0x1000000 && g != 0 && (r == 0 || light.color == 0xFFFF6200) then mode else 0
  {
    StatusesForgetHistory(haveTrackball, events, Red);
    StatusesForgetHistory(haveTrackball, events, Green);
    assert light == Effective(LastBattery(events), LastNotification(events));
    StatusByChannels(light, r, g, b);
  }

  lemma {:induction false} StatusByChannels(light: Light, r: int, g: int, b: int)
    requires HasChannels(light.color, r, g, b)
    ensures var mode := if light.flashMode == 1 && light.flashOnMS != 0 && light.flashOffMS != 0 then 1 else 2;
      && StatusFor(light, Red) == (if light.color >= 0x1000000 && r != 0 then mode else 0)
      && StatusFor(light, Green)
         == if light.color >= 0x1000000 && g != 0 && (r == 0 || light.color == 0xFFFF6200) then mode else 0
  {
    ChannelsAre(light.color, r, g, b);
    AlphaExactly(light.color);
  }

  lemma {:induction false} AlphaExactly(c: Color)
    ensures Alpha(c) != 0 <==> c >= 0x1000000
  {
  }

  // ---- The backlight ----

  ghost function Level(haveTrackball: bool, events: seq<Event>): int {
    Run(haveTrackball, events).backlight
  }

  ghost function LcdContent(haveTrackball: bool, events: seq<Event>): Option<Value> {
    Content(Run(haveTrackball, events).log, LcdFile)
  }

  lemma {:induction false} ContentOfOneMore(log: seq<Write>, w: Write, file: File)
    ensures Content(log + [w], file) == if w.file == file then Some(w.value) else Content(log, file)
  {
    assert (log + [w])[..|log|] == log;
  }

  lemma {:induction false} HandleSkipsLcd(h: Hal)
    ensures Content(HandleTrackball(h).log, LcdFile) == Content(h.log, LcdFile)
  {
    ContentOfOneMore(h.log, Write(TrackballFile, Number(TrackballMode(h))), LcdFile);
  }

  lemma {:induction false} PreparedLcd(h: Hal, e: Event)
    ensures Content(Prepare(h, e).log, LcdFile)
         == if e.SetBacklight? then Some(Number(Brightness(e.light))) else Content(h.log, LcdFile)
  {
    match e
    case SetBattery(l) =>
    case SetNotifications(l) => HandleSkipsLcd(h.(notification := l));
    case SetBacklight(l) =>
      var w := Write(LcdFile, Number(Brightness(l)));
      ContentOfOneMore(h.log, w, LcdFile);
      HandleSkipsLcd(h.(backlight := Brightness(l), log := h.log + [w]));
    case SetAttention(l) =>
      HandleSkipsLcd(h.(attention := if l.flashMode == FLASH_HARDWARE then l.flashOnMS
                                     else if l.flashMode == FLASH_NONE then 0 else h.attention));
  }

  lemma {:induction false} BacklightStep(h: Hal, e: Event)
    ensures Apply(h, e).backlight == if e.SetBacklight? then Brightness(e.light) else h.backlight
    ensures Content(Apply(h, e).log, LcdFile)
         == if e.SetBacklight? then Some(Number(Brightness(e.light))) else Content(h.log, LcdFile)
  {
    ApplyStatus(h, e, Red);
    ShowAllSkips(Prepare(h, e), Shown(h, e), LcdFile);
    PreparedLcd(h, e);
  }

  lemma {:induction false} LevelStep(haveTrackball: bool, events: seq<Event>)
    requires events != []
    ensures var front, e := events[..|events| - 1], events[|events| - 1];
      && Level(haveTrackball, events) == (if e.SetBacklight? then Brightness(e.light) else Level(haveTrackball, front))
      && LcdContent(haveTrackball, events)
         == if e.SetBacklight? then Some(Number(Brightness(e.light))) else LcdContent(haveTrackball, front)
  {
    BacklightStep(Run(haveTrackball, events[..|events| - 1]), events[|events| - 1]);
  }

  lemma {:induction false} BacklightIsLast(haveTrackball: bool, events: seq<Event>, k: nat)
    requires k < |events| && events[k].SetBacklight?
    requires forall m :: k < m < |events| ==> !events[m].SetBacklight?
    ensures Level(haveTrackball, events) == Brightness(events[k].light)
    ensures LcdContent(haveTrackball, events) == Some(Number(Brightness(events[k].light)))
    decreases |events|
  {
    LevelStep(haveTrackball, events);
    if k < |events| - 1 { BacklightIsLast(haveTrackball, events[..|events| - 1], k); }
  }

  /** In every run the backlight file holds the weighted level of the last
      backlight call, and so does the field. */
  lemma {:induction false} BacklightIsLastLevel(haveTrackball: bool, events: seq<Event>, k: nat,
                                                r: int, g: int, b: int)
    requires k < |events| && events[k].SetBacklight? && HasChannels(events[k].light.color, r, g, b)
    requires forall m :: k < m < |events| ==> !events[m].SetBacklight?
    ensures var h, level := Run(haveTrackball, events), (77 * r + 150 * g + 29 * b) / 256;
      h.backlight == level && Content(h.log, LcdFile) == Some(Number(level))
  {
    BacklightIsLast(haveTrackball, events, k);
    ChannelsAre(events[k].light.color, r, g, b);
  }

  // ---- The attention value ----

  ghost function Attention(haveTrackball: bool, events: seq<Event>): int {
    Run(haveTrackball, events).attention
  }

  predicate SetsAttention(e: Event) { e.SetAttention? && e.light.flashMode in {0, 2} }

  lemma {:induction false} AttentionStep(haveTrackball: bool, events: seq<Event>)
    requires events != []
    ensures var front, e := events[..|events| - 1], events[|events| - 1];
      Attention(haveTrackball, events)
      == if SetsAttention(e) then (if e.light.flashMode == 2 then e.light.flashOnMS else 0)
         else Attention(haveTrackball, front)
  {
    ApplyStatus(Run(haveTrackball, events[..|events| - 1]), events[|events| - 1], Red);
  }

  /** The attention value is that of the last attention light that flashes in
      hardware or not at all; timed flashing leaves it alone. */
  lemma {:induction false} AttentionIsLast(haveTrackball: bool, events: seq<Event>, k: nat)
    requires k < |events| && SetsAttention(events[k])
    requires forall m :: k < m < |events| ==> !SetsAttention(events[m])
    ensures Attention(haveTrackball, events)
         == if events[k].light.flashMode == 2 then events[k].light.flashOnMS else 0
    decreases |events|
  {
    AttentionStep(haveTrackball, events);
    if k < |events| - 1 { AttentionIsLast(haveTrackball, events[..|events| - 1], k); }
  }

  // ---- The order of writes ----

  /** Delays are only written behind the timer trigger that makes their files
      appear, off before on, and full brightness only behind the trigger none. */
  ghost predicate InOrder(log: seq<Write>) {
    && (forall k, led :: 0 <= k < |log| && log[k].file == DelayOffFile(led) ==>
          k > 0 && log[k - 1] == Write(TriggerFile(led), Text("timer")))
    && (forall k, led :: 0 <= k < |log| && log[k].file == DelayOnFile(led) ==>
          k > 0 && log[k - 1].file == DelayOffFile(led))
    && (forall k, led :: 0 <= k < |log| && log[k].file == BrightnessFile(led) && log[k].value != Number(0) ==>
          k > 0 && log[k - 1] == Write(TriggerFile(led), Text("none")) && log[k].value == Number(255))
  }

  lemma {:induction false} InOrderAppend(log: seq<Write>, more: seq<Write>)
    requires InOrder(log) && InOrder(more)
    ensures InOrder(log + more)
  {
    var all := log + more;
    assert forall k :: |log| <= k < |all| ==> all[k] == more[k - |log|];
  }

  lemma {:induction false} BlinkInOrder(h: Hal, call: BlinkCall)
    requires InOrder(h.log)
    ensures InOrder(Blink(h, call).log)
  {
    assert InOrder(BlinkWrites(call));
    InOrderAppend(h.log, BlinkWrites(call));
  }

  lemma {:induction false} ShowAllInOrder(h: Hal, lights: seq<Light>)
    requires InOrder(h.log)
    ensures InOrder(ShowAll(h, lights).log)
  {
    if lights != [] {
      var front, last := ShowAll(h, lights[..|lights| - 1]), lights[|lights| - 1];
      ShowAllInOrder(h, lights[..|lights| - 1]);
      SpeakerInTwo(front, last);
      BlinkInOrder(front, SpeakerCalls(last)[0]);
      BlinkInOrder(Speaker(front, last, 1), SpeakerCalls(last)[1]);
    }
  }

  lemma {:induction false} HandleInOrder(h: Hal)
    requires InOrder(h.log)
    ensures InOrder(HandleTrackball(h).log)
  {
    InOrderAppend(h.log, [Write(TrackballFile, Number(TrackballMode(h)))]);
  }

  lemma {:induction false} PreparedInOrder(h: Hal, e: Event)
    requires InOrder(h.log)
    ensures InOrder(Prepare(h, e).log)
  {
    match e
    case SetBattery(l) =>
    case SetNotifications(l) => HandleInOrder(h.(notification := l));
    case SetBacklight(l) =>
      var level := Brightness(l);
      InOrderAppend(h.log, [Write(LcdFile, Number(level))]);
      HandleInOrder(h.(backlight := level, log := h.log + [Write(LcdFile, Number(level))]));
    case SetAttention(l) =>
      HandleInOrder(h.(attention := if l.flashMode == FLASH_HARDWARE then l.flashOnMS
                                    else if l.flashMode == FLASH_NONE then 0 else h.attention));
  }

  lemma {:induction false} WritesInOrder(haveTrackball: bool, events: seq<Event>)
    ensures InOrder(Run(haveTrackball, events).log)
  {
    if events != [] {
      var h, e := Run(haveTrackball, events[..|events| - 1]), events[|events| - 1];
      WritesInOrder(haveTrackball, events[..|events| - 1]);
      PreparedInOrder(h, e);
      ShowAllInOrder(Prepare(h, e), Shown(h, e));
    }
  }

  // ---- One run ----

  /** A red notification that flashes half a second on and one off, on a device
      just started: only the red LED's files are written. */
  lemma {:induction false} RedNotification()
    ensures var h := Run(false, [SetNotifications(Light(0xFFFF0000, 1, 500, 1000))]);
      && h.red == 1 && h.green == 0 && h.backlight == 255 && h.attention == 0
      && h.log == [Write(TriggerFile(Red), Text("timer")), Write(DelayOffFile(Red), Number(1000)),
                   Write(DelayOnFile(Red), Number(500))]
  {
    var light := Light(0xFFFF0000, 1, 500, 1000);
    var start := Initial(false);
    var h := start.(notification := light);
    var events := [SetNotifications(light)];
    assert events[..0] == [] && Run(false, events) == Apply(start, events[0]);
    ShowTwo(h, DARK, light);
    SpeakerIdle(h, DARK);
    SpeakerInTwo(h, light);
    assert SpeakerCalls(light) == [BlinkCall(Green, 0, 0, 0), BlinkCall(Red, 255, 500, 1000)];
  }
}
