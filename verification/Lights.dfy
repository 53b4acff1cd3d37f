/** liblights/lights.c: the globals, the two LED drivers with their private
    status caches, and the set_light entry points. Writes always succeed. */
module Lights {
  import opened LightValues
  import LightProofs

  /** The sysfs files, as the log of writes. */
  class Sysfs {
    var log: seq<Write>
    /** How often a delay file was waited for, and what each look found. */
    var polls: nat
    const delayFileReady: nat -> bool

    constructor (delayFileReady: nat -> bool)
      ensures log == [] && polls == 0 && this.delayFileReady == delayFileReady
    {
      log := [];
      polls := 0;
      this.delayFileReady := delayFileReady;
    }

    method Put(file: File, value: Value)
      modifies this`log
      ensures log == old(log) + [Write(file, value)]
    {
      log := log + [Write(file, value)];
    }
  }

  /** blink_red and blink_green, which differ only in their files. */
  class LedDriver {
    const led: Led
    const sysfs: Sysfs
    var preStatus: int

    constructor (led: Led, sysfs: Sysfs)
      ensures this.led == led && this.sysfs == sysfs && preStatus == OFF
    {
      this.led := led;
      this.sysfs := sysfs;
      preStatus := OFF;
    }

    /** An unchanged status returns -1 and writes nothing; a change writes the
        files of the new status, after waiting at most ten times for the delay
        files when blinking. */
    method Blink(level: int, onMS: int, offMS: int) returns (ret: int)
      modifies this, sysfs
      ensures var call := BlinkCall(led, level, onMS, offMS);
        && preStatus == NowStatus(call)
        && sysfs.log == (if old(preStatus) == NowStatus(call) then old(sysfs.log)
                         else old(sysfs.log) + BlinkWrites(call))
        && ret == (if old(preStatus) == NowStatus(call) then -1 else 0)
      ensures old(sysfs.polls) <= sysfs.polls <= old(sysfs.polls) + 10
      ensures sysfs.polls > old(sysfs.polls) ==> preStatus == BLINKING && old(preStatus) != BLINKING
    {
      var nowStatus;
      if level == 0 {
        nowStatus := OFF;
      } else if onMS != 0 && offMS != 0 {
        nowStatus := BLINKING;
      } else {
        nowStatus := STEADY;
      }
      if preStatus == nowStatus { return -1; }
      ghost var before := sysfs.log;
      if nowStatus == OFF {
        sysfs.Put(BrightnessFile(led), Number(0));
      } else if nowStatus == BLINKING {
        sysfs.Put(TriggerFile(led), Text("timer"));
        var i := 0;
        while i < 10 && !sysfs.delayFileReady(sysfs.polls)
          invariant 0 <= i <= 10 && sysfs.polls == old(sysfs.polls) + i
          invariant sysfs.log == before + [Write(TriggerFile(led), Text("timer"))]
          invariant preStatus == old(preStatus)
          decreases 10 - i
        {
          sysfs.polls := sysfs.polls + 1;
          i := i + 1;
        }
        sysfs.Put(DelayOffFile(led), Number(offMS));
        sysfs.Put(DelayOnFile(led), Number(onMS));
      } else {
        sysfs.Put(TriggerFile(led), Text("none"));
        sysfs.Put(BrightnessFile(led), Number(255));
      }
      preStatus := nowStatus;
      return 0;
    }
  }

  class LightsHal {
    const sysfs: Sysfs
    const red: LedDriver
    const green: LedDriver
    const haveTrackball: bool
    var notification: Light
    var battery: Light
    var backlight: int
    var trackball: int
    var attention: int

    ghost predicate Valid()
      reads this, red, green
    {
      && red.led == Red && green.led == Green && red != green
      && red.sysfs == sysfs && green.sysfs == sysfs
    }

    /** The state as a value. */
    ghost function View(): Hal
      reads this, red, green, sysfs
    {
      Hal(red.preStatus, green.preStatus, notification, battery, backlight, attention, trackball, haveTrackball,
          sysfs.log)
    }

    constructor (haveTrackball: bool, delayFileReady: nat -> bool)
      ensures Valid() && fresh(red) && fresh(green) && fresh(sysfs)
      ensures View() == Run(haveTrackball, [])
    {
      var files := new Sysfs(delayFileReady);
      sysfs := files;
      red := new LedDriver(Red, files);
      green := new LedDriver(Green, files);
      this.haveTrackball := haveTrackball;
      notification, battery := DARK, DARK;
      backlight, trackball, attention := 255, -1, 0;
    }

    method SetSpeakerLightLocked(state: Light) returns (ret: int)
      requires Valid()
      modifies red, green, sysfs
      ensures View() == Speaker(old(View()), state, 2) && ret == 0
    {
      var onMS, offMS;
      if state.flashMode == FLASH_TIMED {
        onMS, offMS := state.flashOnMS, state.flashOffMS;
      } else {
        onMS, offMS := 0, 0;
      }
      var redLevel, greenLevel := 0, 0;
      if Alpha(state.color) != 0 {
        redLevel, greenLevel := RedOf(state.color), GreenOf(state.color);
      }
      var r;
      if redLevel != 0 {
        if state.color == ORANGE {
          r := green.Blink(redLevel, onMS, offMS);
          r := red.Blink(redLevel, onMS, offMS);
        } else {
          r := green.Blink(0, 0, 0);
          r := red.Blink(redLevel, onMS, offMS);
        }
      } else if greenLevel != 0 {
        r := red.Blink(0, 0, 0);
        r := green.Blink(greenLevel, onMS, offMS);
      } else {
        r := red.Blink(0, 0, 0);
        r := green.Blink(0, 0, 0);
      }
      LightProofs.SpeakerInTwo(old(View()), state);
      return 0;
    }

    method HandleSpeakerBatteryLocked()
      requires Valid()
      modifies red, green, sysfs
      ensures View() == ShowAll(old(View()), SpeakerOrBattery(old(battery), old(notification)))
    {
      LightProofs.ShowTwo(View(), battery, notification);
      var r;
      if IsLit(battery) {
        r := SetSpeakerLightLocked(battery);
      } else {
        r := SetSpeakerLightLocked(battery);
        r := SetSpeakerLightLocked(notification);
      }
    }

    method HandleTrackballLightLocked() returns (ret: int)
      requires Valid() && haveTrackball
      modifies sysfs
      ensures View() == HandleTrackball(old(View())) && ret == 0
    {
      var mode := attention;
      if mode == 7 && backlight != 0 { mode := 0; }
      if trackball == mode { return 0; }
      sysfs.Put(TrackballFile, Number(mode));
      return 0;
    }

    method SetLightBacklight(state: Light) returns (err: int)
      requires Valid()
      modifies this, red, green, sysfs
      ensures Valid() && View() == Apply(old(View()), SetBacklight(state)) && err == 0
    {
      backlight := Brightness(state);
      sysfs.Put(LcdFile, Number(backlight));
      if haveTrackball { var r := HandleTrackballLightLocked(); }
      return 0;
    }

    method SetLightBattery(state: Light) returns (err: int)
      requires Valid()
      modifies this, red, green, sysfs
      ensures Valid() && View() == Apply(old(View()), SetBattery(state)) && err == 0
    {
      battery := state;
      ghost var h := View();
      assert [state] + [state] == [state, state] && [state] + [state, notification] == [state, state, notification];
      assert [] + SpeakerOrBattery(state, notification) == SpeakerOrBattery(state, notification);
      LightProofs.ShowTwo(h, state, notification);
      if haveTrackball { var r := SetSpeakerLightLocked(state); }
      HandleSpeakerBatteryLocked();
      LightProofs.ShowTwo(Speaker(h, state, 2), state, notification);
      return 0;
    }

    method SetLightNotifications(state: Light) returns (err: int)
      requires Valid()
      modifies this, red, green, sysfs
      ensures Valid() && View() == Apply(old(View()), SetNotifications(state)) && err == 0
    {
      notification := state;
      if haveTrackball { var r := HandleTrackballLightLocked(); }
      HandleSpeakerBatteryLocked();
      return 0;
    }

    method SetLightAttention(state: Light) returns (err: int)
      requires Valid()
      modifies this, red, green, sysfs
      ensures Valid() && View() == Apply(old(View()), SetAttention(state)) && err == 0
    {
      if state.flashMode == FLASH_HARDWARE {
        attention := state.flashOnMS;
      } else if state.flashMode == FLASH_NONE {
        attention := 0;
      }
      if haveTrackball { var r := HandleTrackballLightLocked(); }
      return 0;
    }
  }

  /** Any sequence of calls on the device drives it to the state Run describes,
      so the facts about runs are facts about the device. */
  method Drive(haveTrackball: bool, delayFileReady: nat -> bool, events: seq<Event>) returns (hal: LightsHal)
    ensures hal.Valid() && hal.View() == Run(haveTrackball, events)
  {
    hal := new LightsHal(haveTrackball, delayFileReady);
    for i := 0 to |events|
      invariant hal.Valid() && hal.View() == Run(haveTrackball, events[..i])
      invariant fresh(hal) && fresh(hal.red) && fresh(hal.green) && fresh(hal.sysfs)
    {
      assert events[..i + 1][..i] == events[..i];
      var err;
      match events[i] {
        case SetBattery(l) => err := hal.SetLightBattery(l);
        case SetNotifications(l) => err := hal.SetLightNotifications(l);
        case SetBacklight(l) => err := hal.SetLightBacklight(l);
        case SetAttention(l) => err := hal.SetLightAttention(l);
      }
    }
    assert events[..|events|] == events;
  }
}
