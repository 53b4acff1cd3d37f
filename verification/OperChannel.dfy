/** Frequencies and operating channels, and the single-channel/multi-channel
    switch driven by the MIRACAST and p2p_use_mcc commands. */
module OperChannel {
  import opened JavaText
  import opened SharedFreqs

  // ---- Frequencies and channels ----

  datatype Pair = Pair(opClass: int, channel: int)

  /** priv_p2p_freq_to_channel; None is its -1. */
  function FreqToChannel(freq: int): Option<Pair> {
    if 2412 <= freq <= 2472 then
      if (freq - 2407) % 5 != 0 then None else Some(Pair(81, (freq - 2407) / 5))
    else if freq == 2484 then Some(Pair(82, 14))
    else if 5180 <= freq <= 5240 then
      if (freq - 5000) % 5 != 0 then None else Some(Pair(115, (freq - 5000) / 5))
    else if 5745 <= freq <= 5805 then
      if (freq - 5000) % 5 != 0 then None else Some(Pair(124, (freq - 5000) / 5))
    else None
  }

  /** The class and channel ranges the driver works with. */
  predicate Admissible(p: Pair) {
    || (p.opClass == 81 && 1 <= p.channel <= 13)
    || (p.opClass == 82 && p.channel == 14)
    || (p.opClass == 115 && 36 <= p.channel <= 48)
    || (p.opClass == 124 && 149 <= p.channel <= 161)
  }

  /** The centre frequency of a channel in its class. */
  function ChannelToFreq(p: Pair): int {
    if p.opClass == 81 then 2407 + 5 * p.channel
    else if p.opClass == 82 then 2414 + 5 * p.channel
    else 5000 + 5 * p.channel
  }

  /** The conversion is a bijection between the recognised frequencies and the
      admissible pairs, with ChannelToFreq as its inverse. */
  lemma {:induction false} FreqChannelBijection(freq: int, p: Pair)
    ensures FreqToChannel(freq) == Some(p) <==> Admissible(p) && ChannelToFreq(p) == freq
  {
  }

  /** The channels Annex E (Table E-4) of IEEE Std 802.11-2012 lists for the class. */
  predicate InTableE4(p: Pair) {
    || (p.opClass == 81 && 1 <= p.channel <= 13)
    || (p.opClass == 82 && p.channel == 14)
    || (p.opClass == 115 && p.channel in {36, 40, 44, 48})
    || (p.opClass == 124 && p.channel in {149, 153, 157, 161})
  }

  /** The conversion also accepts 5 GHz frequencies between the listed channels:
      its answer is a listed one exactly for 2.4 GHz or every 20 MHz above. */
  lemma {:induction false} TableE4Exactly(freq: int)
    requires FreqToChannel(freq).Some?
    ensures InTableE4(FreqToChannel(freq).value)
      <==> freq < 5000 || (freq < 5700 && freq % 20 == 0) || (freq > 5700 && freq % 20 == 5)
  {
  }

  // ---- Channel lists ----

  /** The C structures: counts, and arrays of which only the first entries count. */
  datatype RegClass = RegClass(regClass: int, channels: nat, channel: seq<int>)
  datatype Channels = Channels(regClasses: nat, regClass: seq<RegClass>)

  ghost predicate Shaped(c: Channels) {
    && c.regClasses <= |c.regClass| && |c.regClass| >= 1
    && forall i :: 0 <= i < |c.regClass| ==>
      c.regClass[i].channels <= |c.regClass[i].channel| && |c.regClass[i].channel| >= 1
  }

  /** The list a reader of the structure sees. */
  ghost function View(c: Channels): seq<(int, seq<int>)>
    requires Shaped(c)
  {
    seq(c.regClasses, i requires 0 <= i < c.regClasses =>
      (c.regClass[i].regClass, c.regClass[i].channel[..c.regClass[i].channels]))
  }

  // ---- Commands ----

  /** What one command finds around it: the interfaces on the radio, whether
      memory was to be had, what happened to be on the stack, and a random word. */
  datatype World = World(ifaces: seq<Iface>, haveMemory: bool, stack: Pair, random: nat)

  /** The numbers are atoi's; freq is the text after " freq=", if there. */
  datatype Command = Miracast(value: int, freq: Option<int>) | UseMcc(value: int)

  /** What a command asks of p2p_wfd_sink_config_scc. */
  datatype Effect = Scc(freq: nat) | Mcc | Ignored

  function AsByte(v: int): int { v % 0x100 }
  function AsUnsigned(v: int): int { v % 0x1_0000_0000 }

  /** The frequency mtk_get_shared_radio_freqs reports for one place, if any. */
  function SharedFreq(w: World): Option<int> {
    var all := Firsts(Freqs(w.ifaces));
    if w.haveMemory && |all| > 0 then Some(all[0]) else None
  }

  /** The frequency is read as unsigned by MIRACAST and as signed by p2p_use_mcc. */
  function EffectOf(c: Command, w: World): Effect {
    match c
    case Miracast(value, freq) =>
      if AsByte(value) > 2 then Ignored
      else if AsByte(value) == 2 && freq.Some? then
        if AsUnsigned(freq.value) != 0 then Scc(AsUnsigned(freq.value)) else Mcc
      else if SharedFreq(w).Some? && AsUnsigned(SharedFreq(w).value) != 0 then Scc(AsUnsigned(SharedFreq(w).value))
      else Mcc
    case UseMcc(value) =>
      if AsByte(value) == 0 && SharedFreq(w).Some? && SharedFreq(w).value > 0 then Scc(SharedFreq(w).value)
      else Mcc
  }

  datatype Conf = Conf(oper: Pair, channels: Channels)

  datatype Oper = Oper(pair: Pair, channels: Channels, cfgOpChannel: int)

  function Configured(conf: Conf): bool { conf.oper.opClass != 0 && conf.oper.channel != 0 }

  /** The pair a single-channel request ends in: whatever is on the stack when
      the frequency is not recognised, since the failure is not looked at. */
  function SccPair(freq: int, stack: Pair): Pair {
    if FreqToChannel(freq).Some? then FreqToChannel(freq).value else stack
  }

  function MccPair(conf: Conf, random: nat): Pair {
    if Configured(conf) then conf.oper else Pair(81, 1 + (random % 3) * 5)
  }

  function Apply(s: Oper, e: Effect, conf: Conf, w: World): Oper
    requires |s.channels.regClass| >= 1 && |s.channels.regClass[0].channel| >= 1
  {
    match e
    case Ignored => s
    case Scc(freq) =>
      var p := SccPair(freq, w.stack);
      var first := s.channels.regClass[0];
      var only := RegClass(p.opClass, 1, first.channel[0 := p.channel]);
      Oper(p, Channels(1, s.channels.regClass[0 := only]), s.cfgOpChannel)
    case Mcc => Oper(MccPair(conf, w.random), conf.channels, if Configured(conf) then 1 else 0)
  }

  /** What a state shows right after an effect, whatever came before. */
  ghost predicate Shows(s: Oper, e: Effect, conf: Conf, w: World) {
    Shaped(s.channels) &&
    match e
    case Ignored => true
    case Scc(freq) => s.pair == SccPair(freq, w.stack) && View(s.channels) == [(s.pair.opClass, [s.pair.channel])]
    case Mcc => s.pair == MccPair(conf, w.random) && s.channels == conf.channels
                && s.cfgOpChannel == if Configured(conf) then 1 else 0
  }

  lemma {:induction false} ApplyShows(s: Oper, e: Effect, conf: Conf, w: World)
    requires Shaped(s.channels) && Shaped(conf.channels)
    ensures Shows(Apply(s, e, conf, w), e, conf, w)
  {
    if e.Scc? {
      var t := Apply(s, e, conf, w);
      assert t.channels.regClass[0].channel[..1] == [t.pair.channel];
      assert Shaped(t.channels);
    }
  }

  datatype Step = Step(command: Command, world: World)

  function Run(start: Oper, conf: Conf, steps: seq<Step>): (s: Oper)
    requires |start.channels.regClass| >= 1 && |start.channels.regClass[0].channel| >= 1
    requires |conf.channels.regClass| >= 1 && |conf.channels.regClass[0].channel| >= 1
    ensures |s.channels.regClass| >= 1 && |s.channels.regClass[0].channel| >= 1
  {
    if steps == [] then start
    else
      var last := steps[|steps| - 1];
      Apply(Run(start, conf, steps[..|steps| - 1]), EffectOf(last.command, last.world), conf, last.world)
  }

  /** k is the last step that had an effect. */
  ghost predicate LastEffective(steps: seq<Step>, k: nat) {
    && k < |steps| && EffectOf(steps[k].command, steps[k].world) != Ignored
    && forall m :: k < m < |steps| ==> EffectOf(steps[m].command, steps[m].world) == Ignored
  }

  /** After any run the operating pair and the channel list are those of the last
      effective command; nothing earlier shines through. */
  lemma {:induction false} RunShowsLastEffect(start: Oper, conf: Conf, steps: seq<Step>, k: nat)
    requires Shaped(start.channels) && Shaped(conf.channels) && LastEffective(steps, k)
    ensures Shows(Run(start, conf, steps), EffectOf(steps[k].command, steps[k].world), conf, steps[k].world)
    decreases |steps|
  {
    var n := |steps| - 1;
    var front := steps[..n];
    if k == n {
      RunStaysShaped(start, conf, front);
      ApplyShows(Run(start, conf, front), EffectOf(steps[n].command, steps[n].world), conf, steps[n].world);
    } else {
      RunShowsLastEffect(start, conf, front, k);
    }
  }

  lemma {:induction false} RunStaysShaped(start: Oper, conf: Conf, steps: seq<Step>)
    requires Shaped(start.channels) && Shaped(conf.channels)
    ensures Shaped(Run(start, conf, steps).channels)
  {
    if steps != [] {
      var last := steps[|steps| - 1];
      RunStaysShaped(start, conf, steps[..|steps| - 1]);
      ApplyShows(Run(start, conf, steps[..|steps| - 1]), EffectOf(last.command, last.world), conf, last.world);
    }
  }

  /** The operating pair after a run is admissible exactly when the last
      effective command named a recognised frequency (or the stack happened to
      hold an admissible pair), or went multi-channel with an admissible or no
      configured pair; and the channel list is that one pair or the configured
      list. */
  lemma {:induction false} AdmissibleExactly(start: Oper, conf: Conf, steps: seq<Step>, k: nat)
    requires Shaped(start.channels) && Shaped(conf.channels) && LastEffective(steps, k)
    ensures var s, e := Run(start, conf, steps), EffectOf(steps[k].command, steps[k].world);
      && Shaped(s.channels)
      && (Admissible(s.pair) <==>
            if e.Scc? then FreqToChannel(e.freq).Some? || Admissible(steps[k].world.stack)
            else !Configured(conf) || Admissible(conf.oper))
      && (e.Mcc? && !Configured(conf) ==> s.pair in {Pair(81, 1), Pair(81, 6), Pair(81, 11)})
      && (View(s.channels) == [(s.pair.opClass, [s.pair.channel])] || s.channels == conf.channels)
  {
    RunShowsLastEffect(start, conf, steps, k);
    var e := EffectOf(steps[k].command, steps[k].world);
    if e.Scc? && FreqToChannel(e.freq).Some? { FreqChannelBijection(e.freq, FreqToChannel(e.freq).value); }
  }

  /** Without the recognised frequency it fails: a frequency in a command text
      that no class contains leaves the stack's pair in force. */
  lemma {:induction false} UnrecognisedFrequencyLeaksStack(start: Oper, conf: Conf, w: World)
    requires Shaped(start.channels) && Shaped(conf.channels) && w.stack == Pair(0, 0)
    ensures !Admissible(Run(start, conf, [Step(Miracast(2, Some(5000)), w)]).pair)
  {
  }

  /** The commands that follow the station: MIRACAST 0 and 1, MIRACAST 2 without a
      frequency, and p2p_use_mcc=0; the numbers count modulo 256. */
  predicate FollowsStation(c: Command) {
    match c
    case Miracast(value, freq) => value % 256 in {0, 1} || (value % 256 == 2 && freq.None?)
    case UseMcc(value) => value % 256 == 0
  }

  /** End to end: following a connected station puts the device on the channel of
      the first frequency the interfaces use. */
  lemma {:induction false} StationChannelIsFirstFrequency(start: Oper, conf: Conf, w: World, c: Command, freq: int)
    requires Shaped(start.channels) && Shaped(conf.channels) && FollowsStation(c)
    requires SharedFreq(w) == Some(freq) && FreqToChannel(freq).Some?
    ensures var s := Run(start, conf, [Step(c, w)]);
      Admissible(s.pair) && ChannelToFreq(s.pair) == freq
      && Shaped(s.channels) && View(s.channels) == [(s.pair.opClass, [s.pair.channel])]
  {
    OneCommand(start, conf, w, c, Scc(freq));
    FreqChannelBijection(freq, FreqToChannel(freq).value);
  }

  lemma {:induction false} OneCommand(start: Oper, conf: Conf, w: World, c: Command, e: Effect)
    requires Shaped(start.channels) && Shaped(conf.channels) && EffectOf(c, w) == e && e != Ignored
    ensures Shows(Run(start, conf, [Step(c, w)]), e, conf, w)
  {
    var steps := [Step(c, w)];
    assert EffectOf(steps[0].command, steps[0].world) == e;
    RunShowsLastEffect(start, conf, steps, 0);
  }

  /** MIRACAST 2 with a recognised frequency puts the device on its channel. */
  lemma {:induction false} NamedFrequencyIsTaken(start: Oper, conf: Conf, w: World, value: int, freq: int)
    requires Shaped(start.channels) && Shaped(conf.channels) && value % 256 == 2 && FreqToChannel(freq).Some?
    ensures var s := Run(start, conf, [Step(Miracast(value, Some(freq)), w)]);
      Admissible(s.pair) && ChannelToFreq(s.pair) == freq
      && Shaped(s.channels) && View(s.channels) == [(s.pair.opClass, [s.pair.channel])]
  {
    OneCommand(start, conf, w, Miracast(value, Some(freq)), Scc(freq));
    FreqChannelBijection(freq, FreqToChannel(freq).value);
  }

  /** The commands that go multi-channel: p2p_use_mcc with anything else, following
      a station when the first frequency is none, 0, or negative for p2p_use_mcc, and
      MIRACAST 2 with frequency 0. */
  predicate GoesMultiChannel(c: Command, w: World) {
    || (c.UseMcc? && c.value % 256 != 0)
    || (FollowsStation(c) && SharedFreq(w) in {None, Some(0)})
    || (FollowsStation(c) && c.UseMcc? && SharedFreq(w).Some? && SharedFreq(w).value < 0)
    || (c.Miracast? && c.value % 256 == 2 && c.freq == Some(0))
  }

  /** They end on the configured pair, or else on a social channel picked by the
      random word, with the configured channel list. */
  lemma {:induction false} MultiChannelExactly(start: Oper, conf: Conf, w: World, c: Command)
    requires Shaped(start.channels) && Shaped(conf.channels) && GoesMultiChannel(c, w)
    ensures var s := Run(start, conf, [Step(c, w)]);
      && s.channels == conf.channels
      && (conf.oper.opClass != 0 && conf.oper.channel != 0 ==> s.pair == conf.oper && s.cfgOpChannel == 1)
      && (conf.oper.opClass == 0 || conf.oper.channel == 0 ==>
            s.cfgOpChannel == 0 && s.pair.opClass == 81
            && s.pair.channel == if w.random % 3 == 0 then 1 else if w.random % 3 == 1 then 6 else 11)
  {
    OneCommand(start, conf, w, c, Mcc);
  }

  /** Any other MIRACAST number changes nothing. */
  lemma {:induction false} UnknownMiracastIsIgnored(start: Oper, conf: Conf, w: World, value: int, freq: Option<int>)
    requires Shaped(start.channels) && Shaped(conf.channels) && value % 256 > 2
    ensures Run(start, conf, [Step(Miracast(value, freq), w)]) == start
  {
    var steps := [Step(Miracast(value, freq), w)];
    assert steps[..0] == [];
  }

  /** Asked to follow the station, the two commands agree exactly unless the
      shared frequency is negative, which only p2p_use_mcc takes for none. */
  lemma {:induction false} FollowingTheStationAgrees(w: World)
    requires SharedFreq(w).Some? ==> -0x8000_0000 <= SharedFreq(w).value < 0x8000_0000
    ensures EffectOf(Miracast(0, None), w) == EffectOf(UseMcc(0), w)
      <==> SharedFreq(w).None? || SharedFreq(w).value >= 0
  {
  }

  // ---- The driver ----

  class WfdSink {
    const conf: Conf
    var opRegClass: int
    var opChannel: int
    var channels: Channels
    var cfgOpChannel: int
    var p2pUseMcc: int

    ghost predicate Valid()
      reads this
    {
      Shaped(channels) && Shaped(conf.channels)
    }

    ghost function State(): Oper
      reads this
    {
      Oper(Pair(opRegClass, opChannel), channels, cfgOpChannel)
    }

    constructor (conf: Conf, start: Oper)
      requires Shaped(conf.channels) && Shaped(start.channels)
      ensures Valid() && this.conf == conf && State() == start && p2pUseMcc == 0
    {
      this.conf := conf;
      opRegClass, opChannel := start.pair.opClass, start.pair.channel;
      channels, cfgOpChannel := start.channels, start.cfgOpChannel;
      p2pUseMcc := 0;
    }

    method ConfigScc(scc: bool, operFreq: nat, w: World)
      requires Valid()
      modifies this`opRegClass, this`opChannel, this`channels, this`cfgOpChannel
      ensures Valid()
      ensures State() == Apply(old(State()), if scc && operFreq != 0 then Scc(operFreq) else Mcc, conf, w)
    {
      ghost var e := if scc && operFreq != 0 then Scc(operFreq) else Mcc;
      ApplyShows(State(), e, conf, w);
      if scc && operFreq != 0 {
        var opClass, channel := w.stack.opClass, w.stack.channel;
        var p := FreqToChannel(operFreq);
        if p.Some? { opClass, channel := p.value.opClass, p.value.channel; }
        opChannel := channel;
        opRegClass := opClass;
        channels := channels.(regClasses := 1);
        var first := channels.regClass[0].(channels := 1);
        first := first.(regClass := opClass);
        first := first.(channel := first.channel[0 := channel]);
        channels := channels.(regClass := channels.regClass[0 := first]);
        return;
      }
      if conf.oper.opClass != 0 && conf.oper.channel != 0 {
        opRegClass := conf.oper.opClass;
        opChannel := conf.oper.channel;
        cfgOpChannel := 1;
      } else {
        opRegClass := 81;
        opChannel := 1 + (w.random % 3) * 5;
        cfgOpChannel := 0;
      }
      channels := conf.channels;
    }

    /** Single-channel on the shared frequency if there is one, else multi-channel. */
    method ConfigShared(w: World, signed: bool)
      requires Valid()
      modifies this`opRegClass, this`opChannel, this`channels, this`cfgOpChannel
      ensures Valid()
      ensures State() == Apply(old(State()), EffectOf(if signed then UseMcc(0) else Miracast(0, None), w), conf, w)
    {
      var freqs := new int[1](_ => 0);
      var num := GetSharedRadioFreqs(w.ifaces, freqs, w.haveMemory);
      assert w.haveMemory && num > 0 ==> freqs[..num][0] == freqs[0];
      if signed {
        if num > 0 && freqs[0] > 0 { ConfigScc(true, freqs[0], w); } else { ConfigScc(false, 0, w); }
      } else {
        var freq := AsUnsigned(freqs[0]);
        if num > 0 && freq > 0 { ConfigScc(true, freq, w); } else { ConfigScc(false, 0, w); }
      }
    }

    method MiracastCommand(value: int, freqText: Option<int>, w: World)
      requires Valid()
      modifies this
      ensures Valid() && State() == Apply(old(State()), EffectOf(Miracast(value, freqText), w), conf, w)
      ensures p2pUseMcc == old(p2pUseMcc)
    {
      var miracast := AsByte(value);
      if miracast == 0 || miracast == 1 {
        ConfigShared(w, false);
      } else if miracast == 2 {
        if freqText.Some? {
          ConfigScc(true, AsUnsigned(freqText.value), w);
        } else {
          ConfigShared(w, false);
        }
      }
    }

    method UseMccCommand(value: int, w: World)
      requires Valid()
      modifies this
      ensures Valid() && State() == Apply(old(State()), EffectOf(UseMcc(value), w), conf, w)
      ensures p2pUseMcc == AsByte(value)
    {
      p2pUseMcc := AsByte(value);
      if p2pUseMcc != 0 {
        ConfigScc(false, 0, w);
      } else {
        ConfigShared(w, true);
      }
    }
  }

  /** Any sequence of commands drives the device to the state Run describes. */
  method Drive(conf: Conf, start: Oper, steps: seq<Step>) returns (sink: WfdSink)
    requires Shaped(conf.channels) && Shaped(start.channels)
    ensures sink.Valid() && sink.conf == conf && sink.State() == Run(start, conf, steps)
  {
    sink := new WfdSink(conf, start);
    for i := 0 to |steps|
      invariant fresh(sink) && sink.Valid() && sink.conf == conf && sink.State() == Run(start, conf, steps[..i])
    {
      assert steps[..i + 1][..i] == steps[..i];
      match steps[i].command {
        case Miracast(value, freq) => sink.MiracastCommand(value, freq, steps[i].world);
        case UseMcc(value) => sink.UseMccCommand(value, steps[i].world);
      }
    }
    assert steps[..|steps|] == steps;
  }
}
