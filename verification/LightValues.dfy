/** The lights HAL as a state machine on values: LED status caches, the light
    the speaker LED shows, and the log of everything written to sysfs. */
module LightValues {
  import opened JavaText

  type Color = c: int | 0 <= c < 0x1_0000_0000

  const ORANGE: Color := 0xFFFF6200

  const FLASH_NONE := 0
  const FLASH_TIMED := 1
  const FLASH_HARDWARE := 2

  datatype Light = Light(color: Color, flashMode: int, flashOnMS: int, flashOffMS: int)

  function Alpha(c: Color): int { (c / 0x1000000) % 0x100 }
  function RedOf(c: Color): int { (c / 0x10000) % 0x100 }
  function GreenOf(c: Color): int { (c / 0x100) % 0x100 }
  function BlueOf(c: Color): int { c % 0x100 }

  predicate IsLit(light: Light) { light.color % 0x1000000 != 0 }

  /** rgb_to_brightness. */
  function Brightness(light: Light): int {
    (77 * RedOf(light.color) + 150 * GreenOf(light.color) + 29 * BlueOf(light.color)) / 0x100
  }

  // ---- Sysfs ----

  datatype Led = Red | Green
  datatype File = BrightnessFile(led: Led) | TriggerFile(led: Led) | DelayOnFile(led: Led) | DelayOffFile(led: Led)
                | LcdFile | TrackballFile
  datatype Value = Number(n: int) | Text(s: string)
  datatype Write = Write(file: File, value: Value)

  /** What a file holds: the last value written to it. */
  function Content(log: seq<Write>, file: File): Option<Value> {
    if log == [] then None
    else if log[|log| - 1].file == file then Some(log[|log| - 1].value)
    else Content(log[..|log| - 1], file)
  }

  lemma {:induction false} ContentOfAppend(log: seq<Write>, more: seq<Write>, file: File)
    ensures Content(log + more, file) == if Content(more, file).Some? then Content(more, file) else Content(log, file)
  {
    if more == [] {
      assert log + more == log;
    } else {
      var all := log + more;
      assert all[..|all| - 1] == log + more[..|more| - 1];
      ContentOfAppend(log, more[..|more| - 1], file);
    }
  }

  // ---- One LED ----

  const OFF := 0
  const BLINKING := 1
  const STEADY := 2

  datatype BlinkCall = BlinkCall(led: Led, level: int, onMS: int, offMS: int)

  function NowStatus(call: BlinkCall): int {
    if call.level == 0 then OFF
    else if call.onMS != 0 && call.offMS != 0 then BLINKING
    else STEADY
  }

  function BlinkWrites(call: BlinkCall): seq<Write> {
    var led := call.led;
    if NowStatus(call) == OFF then
      [Write(BrightnessFile(led), Number(0))]
    else if NowStatus(call) == BLINKING then
      [Write(TriggerFile(led), Text("timer")), Write(DelayOffFile(led), Number(call.offMS)),
       Write(DelayOnFile(led), Number(call.onMS))]
    else
      [Write(TriggerFile(led), Text("none")), Write(BrightnessFile(led), Number(255))]
  }

  // ---- The whole HAL ----

  datatype Hal = Hal(red: int, green: int, notification: Light, battery: Light, backlight: int,
                     attention: int, trackball: int, haveTrackball: bool, log: seq<Write>)
  {
    function Status(led: Led): int { if led.Red? then red else green }

    function WithStatus(led: Led, status: int): Hal {
      if led.Red? then this.(red := status) else this.(green := status)
    }

    predicate BothOn() { red != OFF && green != OFF }
  }

  const DARK := Light(0, 0, 0, 0)

  function Initial(haveTrackball: bool): Hal {
    Hal(OFF, OFF, DARK, DARK, 255, 0, -1, haveTrackball, [])
  }

  function Blink(h: Hal, call: BlinkCall): Hal {
    if h.Status(call.led) == NowStatus(call) then h
    else h.WithStatus(call.led, NowStatus(call)).(log := h.log + BlinkWrites(call))
  }

  /** The two blink calls set_speaker_light_locked makes for a light, in order. */
  function SpeakerCalls(light: Light): (calls: seq<BlinkCall>)
    ensures |calls| == 2
  {
    var onMS := if light.flashMode == FLASH_TIMED then light.flashOnMS else 0;
    var offMS := if light.flashMode == FLASH_TIMED then light.flashOffMS else 0;
    var red := if Alpha(light.color) != 0 then RedOf(light.color) else 0;
    var green := if Alpha(light.color) != 0 then GreenOf(light.color) else 0;
    if red != 0 then
      if light.color == ORANGE then [BlinkCall(Green, red, onMS, offMS), BlinkCall(Red, red, onMS, offMS)]
      else [BlinkCall(Green, 0, 0, 0), BlinkCall(Red, red, onMS, offMS)]
    else if green != 0 then [BlinkCall(Red, 0, 0, 0), BlinkCall(Green, green, onMS, offMS)]
    else [BlinkCall(Red, 0, 0, 0), BlinkCall(Green, 0, 0, 0)]
  }

  /** The state after the first k blink calls for a light. */
  function Speaker(h: Hal, light: Light, k: nat): Hal
    requires k <= 2
  {
    if k == 0 then h else Blink(Speaker(h, light, k - 1), SpeakerCalls(light)[k - 1])
  }

  function ShowAll(h: Hal, lights: seq<Light>): Hal {
    if lights == [] then h else Speaker(ShowAll(h, lights[..|lights| - 1]), lights[|lights| - 1], 2)
  }

  /** What handle_speaker_battery_locked shows: an unlit battery light turns
      both LEDs off before the notification is shown. */
  function SpeakerOrBattery(battery: Light, notification: Light): seq<Light> {
    if IsLit(battery) then [battery] else [battery, notification]
  }

  /** The mode the trackball light is meant to show. */
  function TrackballMode(h: Hal): int {
    if h.attention == 7 && h.backlight != 0 then 0 else h.attention
  }

  function HandleTrackball(h: Hal): Hal {
    if !h.haveTrackball || h.trackball == TrackballMode(h) then h
    else h.(log := h.log + [Write(TrackballFile, Number(TrackballMode(h)))])
  }

  datatype Event = SetBattery(light: Light) | SetNotifications(light: Light)
                 | SetBacklight(light: Light) | SetAttention(light: Light)

  /** The lights an event passes to the speaker LED, in order. */
  function Shown(h: Hal, e: Event): seq<Light> {
    match e
    case SetBattery(l) => (if h.haveTrackball then [l] else []) + SpeakerOrBattery(l, h.notification)
    case SetNotifications(l) => SpeakerOrBattery(h.battery, l)
    case _ => []
  }

  /** Everything an event does before it shows lights on the speaker LED. */
  function Prepare(h: Hal, e: Event): Hal {
    match e
    case SetBattery(l) => h.(battery := l)
    case SetNotifications(l) => HandleTrackball(h.(notification := l))
    case SetBacklight(l) =>
      HandleTrackball(h.(backlight := Brightness(l), log := h.log + [Write(LcdFile, Number(Brightness(l)))]))
    case SetAttention(l) =>
      HandleTrackball(h.(attention := if l.flashMode == FLASH_HARDWARE then l.flashOnMS
                                      else if l.flashMode == FLASH_NONE then 0 else h.attention))
  }

  function Apply(h: Hal, e: Event): Hal {
    ShowAll(Prepare(h, e), Shown(h, e))
  }

  function Run(haveTrackball: bool, events: seq<Event>): Hal {
    if events == [] then Initial(haveTrackball)
    else Apply(Run(haveTrackball, events[..|events| - 1]), events[|events| - 1])
  }
}
