/** mtk_get_shared_radio_freqs: which frequencies the interfaces sharing a radio
    are using, each once, at most as many as the caller has room for. */
module SharedFreqs {
  import opened JavaText

  datatype Mode = Infra | Ap | P2pGo | OtherMode
  datatype Ssid = Ssid(mode: Mode, frequency: int, p2pGroup: bool)

  /** bssidKnown: the driver can name the BSS the interface is in. */
  datatype Iface = Iface(currentSsid: Option<Ssid>, assocFreq: int, bssidKnown: bool)

  datatype UsedBy = NotSet | InfraStation | P2pClient
  datatype UsedFreq = UsedFreq(freq: int, flags: UsedBy)

  const ZEROED := UsedFreq(0, NotSet)

  /** The frequency an interface contributes, if it contributes one. */
  function FreqOf(ifs: Iface): Option<int> {
    if ifs.currentSsid.None? || ifs.assocFreq == 0 then None
    else if ifs.currentSsid.value.mode.Ap? || ifs.currentSsid.value.mode.P2pGo? then
      Some(ifs.currentSsid.value.frequency)
    else if ifs.bssidKnown then Some(ifs.assocFreq)
    else None
  }

  function Freqs(ifaces: seq<Iface>): seq<int> {
    if ifaces == [] then []
    else
      var f := FreqOf(ifaces[|ifaces| - 1]);
      Freqs(ifaces[..|ifaces| - 1]) + if f.Some? then [f.value] else []
  }

  /** Each frequency once, in the order of first occurrence. */
  function Firsts(xs: seq<int>): (ys: seq<int>)
    ensures forall x :: x in ys <==> x in xs
  {
    if xs == [] then []
    else
      var front := xs[..|xs| - 1];
      var x := xs[|xs| - 1];
      assert xs == front + [x];
      if x in front then Firsts(front) else Firsts(front) + [x]
  }

  /** No frequency twice, and earlier in the result means first seen earlier. */
  ghost predicate InFirstOccurrenceOrder(ys: seq<int>, xs: seq<int>) {
    && (forall i, j :: 0 <= i < j < |ys| ==> ys[i] != ys[j])
    && (forall i, j :: 0 <= i < j < |ys| ==> SeenBefore(xs, ys[i], ys[j]))
  }

  /** Some occurrence of x precedes every occurrence of y. */
  ghost predicate SeenBefore(xs: seq<int>, x: int, y: int) {
    exists k :: 0 <= k < |xs| && xs[k] == x && y !in xs[..k + 1]
  }

  lemma {:induction false} FirstsInOrder(xs: seq<int>)
    ensures InFirstOccurrenceOrder(Firsts(xs), xs)
  {
    if xs != [] {
      var front := xs[..|xs| - 1];
      var last := xs[|xs| - 1];
      var ys := Firsts(xs);
      FirstsInOrder(front);
      forall i, j | 0 <= i < j < |ys| ensures SeenBefore(xs, ys[i], ys[j]) {
        if ys[j] in front {
          var k :| 0 <= k < |front| && front[k] == ys[i] && ys[j] !in front[..k + 1];
          assert xs[..k + 1] == front[..k + 1];
        } else {
          assert ys == Firsts(front) + [last] && ys[i] == Firsts(front)[i];
          assert ys[i] in Firsts(front) && ys[i] in front;
          var k :| 0 <= k < |front| && front[k] == ys[i];
          assert xs[..k + 1] <= front;
          assert ys[j] !in xs[..k + 1];
        }
      }
    }
  }

  lemma {:induction false} FreqsOfLonger(ifaces: seq<Iface>, n: nat)
    requires n <= |ifaces|
    ensures Firsts(Freqs(ifaces[..n])) <= Firsts(Freqs(ifaces))
    decreases |ifaces|
  {
    if n < |ifaces| {
      var front := ifaces[..|ifaces| - 1];
      assert front[..n] == ifaces[..n];
      FreqsOfLonger(front, n);
      FirstsOfOneMore(ifaces);
    } else {
      assert ifaces[..n] == ifaces;
    }
  }

  lemma {:induction false} FirstsOfOneMore(ifaces: seq<Iface>)
    requires ifaces != []
    ensures var front, f := ifaces[..|ifaces| - 1], FreqOf(ifaces[|ifaces| - 1]);
      Firsts(Freqs(ifaces)) == if f.None? || f.value in Firsts(Freqs(front)) then Firsts(Freqs(front))
                               else Firsts(Freqs(front)) + [f.value]
  {
    var front, f := ifaces[..|ifaces| - 1], FreqOf(ifaces[|ifaces| - 1]);
    if f.Some? {
      var xs := Freqs(ifaces);
      assert xs[..|xs| - 1] == Freqs(front);
    } else {
      assert Freqs(ifaces) == Freqs(front);
    }
  }

  /** The flag a frequency ends up with: that of the last station interface on it. */
  function FlagOf(ifaces: seq<Iface>, freq: int): UsedBy {
    if ifaces == [] then NotSet
    else
      var ifs := ifaces[|ifaces| - 1];
      if FreqOf(ifs) == Some(freq) && ifs.currentSsid.value.mode.Infra?
      then if ifs.currentSsid.value.p2pGroup then P2pClient else InfraStation
      else FlagOf(ifaces[..|ifaces| - 1], freq)
  }

  /** The interface is on the frequency: an access point or group owner on the
      configured one, any other that knows its BSS on the associated one. */
  ghost predicate Uses(ifs: Iface, freq: int) {
    && ifs.currentSsid.Some? && ifs.assocFreq != 0
    && (ifs.currentSsid.value.mode in {Ap, P2pGo} ==> freq == ifs.currentSsid.value.frequency)
    && (ifs.currentSsid.value.mode in {Infra, OtherMode} ==> ifs.bssidKnown && freq == ifs.assocFreq)
  }

  ghost predicate IsStation(ifs: Iface) {
    ifs.currentSsid.Some? && ifs.currentSsid.value.mode == Infra
  }

  /** The frequencies are exactly those some interface is on. */
  lemma {:induction false} FreqsExactly(ifaces: seq<Iface>, freq: int)
    ensures freq in Firsts(Freqs(ifaces)) <==> exists i :: 0 <= i < |ifaces| && Uses(ifaces[i], freq)
  {
    if ifaces != [] {
      var n := |ifaces| - 1;
      var front := ifaces[..n];
      FreqsExactly(front, freq);
      FreqsOneMore(ifaces, freq);
      if i :| 0 <= i < n && Uses(front[i], freq) { assert Uses(ifaces[i], freq); }
      if i :| 0 <= i < n && Uses(ifaces[i], freq) { assert Uses(front[i], freq); }
    }
  }

  lemma {:induction false} FreqsOneMore(ifaces: seq<Iface>, freq: int)
    requires ifaces != []
    ensures var n := |ifaces| - 1;
      freq in Firsts(Freqs(ifaces)) <==> freq in Firsts(Freqs(ifaces[..n])) || Uses(ifaces[n], freq)
  {
    var n := |ifaces| - 1;
    assert Freqs(ifaces)
        == Freqs(ifaces[..n]) + if FreqOf(ifaces[n]).Some? then [FreqOf(ifaces[n]).value] else [];
  }

  /** A frequency is flagged by the last station on it: as a P2P client if that is
      in a group, else as an infrastructure station; without a station not at all. */
  lemma {:induction false} FlagsExactly(ifaces: seq<Iface>, freq: int)
    ensures FlagOf(ifaces, freq) == NotSet
      <==> forall i :: 0 <= i < |ifaces| && IsStation(ifaces[i]) ==> !Uses(ifaces[i], freq)
    ensures forall i :: 0 <= i < |ifaces| && IsStation(ifaces[i]) && Uses(ifaces[i], freq)
                        && (forall j :: i < j < |ifaces| && IsStation(ifaces[j]) ==> !Uses(ifaces[j], freq)) ==>
      FlagOf(ifaces, freq) == if ifaces[i].currentSsid.value.p2pGroup then P2pClient else InfraStation
  {
    if ifaces != [] {
      var n := |ifaces| - 1;
      var front := ifaces[..n];
      FlagsExactly(front, freq);
      assert FreqOf(ifaces[n]) == Some(freq) <==> Uses(ifaces[n], freq);
      assert forall i :: 0 <= i < n ==> front[i] == ifaces[i];
    }
  }

  /** The array holds the listed frequencies, with these interfaces' flags. */
  ghost predicate HoldsList(data: seq<UsedFreq>, list: seq<int>, ifaces: seq<Iface>) {
    && |list| <= |data|
    && (forall j :: 0 <= j < |list| ==> data[j].freq == list[j] && data[j].flags == FlagOf(ifaces, list[j]))
    && (forall j :: |list| <= j < |data| ==> data[j] == ZEROED)
  }

  /** The array holds the collected frequencies of these interfaces, with flags. */
  ghost predicate Holds(data: seq<UsedFreq>, idx: nat, ifaces: seq<Iface>) {
    && idx == |Firsts(Freqs(ifaces))|
    && HoldsList(data, Firsts(Freqs(ifaces)), ifaces)
  }

  /** Where the frequency already is among the first idx, or idx. */
  method FindFreq(data: array<UsedFreq>, idx: nat, freq: int) returns (i: nat)
    requires idx <= data.Length
    ensures i <= idx && (i < idx ==> data[i].freq == freq)
    ensures forall j :: 0 <= j < i ==> data[j].freq != freq
  {
    i := 0;
    while i < idx
      invariant 0 <= i <= idx
      invariant forall j :: 0 <= j < i ==> data[j].freq != freq
    {
      if data[i].freq == freq { break; }
      i := i + 1;
    }
  }

  /** A frequency nobody uses has no flag. */
  lemma {:induction false} FlagAbsent(ifaces: seq<Iface>, freq: int)
    ensures freq !in Freqs(ifaces) ==> FlagOf(ifaces, freq) == NotSet
  {
    if ifaces != [] { FlagAbsent(ifaces[..|ifaces| - 1], freq); }
  }

  lemma {:induction false} FirstsDistinct(xs: seq<int>)
    ensures forall i, j :: 0 <= i < j < |Firsts(xs)| ==> Firsts(xs)[i] != Firsts(xs)[j]
  {
    FirstsInOrder(xs);
  }

  lemma {:induction false} FlagOfOneMore(before: seq<Iface>, ifs: Iface, freq: int)
    ensures FlagOf(before + [ifs], freq) ==
      if FreqOf(ifs) == Some(freq) && ifs.currentSsid.value.mode.Infra?
      then if ifs.currentSsid.value.p2pGroup then P2pClient else InfraStation
      else FlagOf(before, freq)
  {
    assert (before + [ifs])[..|before|] == before;
  }

  lemma {:induction false} HoldsAfterSkip(data: seq<UsedFreq>, idx: nat, before: seq<Iface>, ifs: Iface)
    requires Holds(data, idx, before) && FreqOf(ifs).None?
    ensures Holds(data, idx, before + [ifs])
  {
    ListOfOneMore(before, ifs);
    forall j | 0 <= j < idx ensures FlagOf(before + [ifs], data[j].freq) == FlagOf(before, data[j].freq) {
      FlagOfOneMore(before, ifs, data[j].freq);
    }
  }

  /** Only the entry of the interface's own frequency changes its flag. */
  lemma {:induction false} OneFlagChanges(data: seq<UsedFreq>, list: seq<int>, before: seq<Iface>, ifs: Iface,
                                          entry: UsedFreq, i: nat)
    requires HoldsList(data, list, before) && FreqOf(ifs).Some? && i <= |list| && i < |data|
    requires forall j :: 0 <= j < |list| && j != i ==> list[j] != FreqOf(ifs).value
    requires entry == UsedFreq(FreqOf(ifs).value, FlagOf(before + [ifs], FreqOf(ifs).value))
    requires i < |list| ==> list[i] == FreqOf(ifs).value
    ensures HoldsList(data[i := entry], if i < |list| then list else list + [FreqOf(ifs).value], before + [ifs])
  {
    forall j | 0 <= j < |list| && j != i ensures FlagOf(before + [ifs], list[j]) == FlagOf(before, list[j]) {
      FlagOfOneMore(before, ifs, list[j]);
    }
  }

  /** A frequency not collected yet goes behind the others. */
  lemma {:induction false} HoldsAfterNew(data: seq<UsedFreq>, idx: nat, before: seq<Iface>, ifs: Iface,
                                         entry: UsedFreq)
    requires Holds(data, idx, before) && idx < |data| && FreqOf(ifs).Some?
    requires forall j :: 0 <= j < idx ==> data[j].freq != FreqOf(ifs).value
    requires entry == UsedFreq(FreqOf(ifs).value, FlagOf(before + [ifs], FreqOf(ifs).value))
    ensures Holds(data[idx := entry], idx + 1, before + [ifs])
    ensures data[idx].flags == FlagOf(before, FreqOf(ifs).value)
  {
    var freq := FreqOf(ifs).value;
    var list := Firsts(Freqs(before));
    assert forall j :: 0 <= j < idx ==> data[j].freq == list[j];
    assert freq !in list;
    FlagAbsent(before, freq);
    ListOfOneMore(before, ifs);
    OneFlagChanges(data, list, before, ifs, entry, idx);
  }

  /** A frequency collected before only has its flag changed. */
  lemma {:induction false} HoldsAfterSeen(data: seq<UsedFreq>, idx: nat, before: seq<Iface>, ifs: Iface,
                                          entry: UsedFreq, i: nat)
    requires Holds(data, idx, before) && FreqOf(ifs).Some?
    requires i < idx && data[i].freq == FreqOf(ifs).value
    requires entry == UsedFreq(FreqOf(ifs).value, FlagOf(before + [ifs], FreqOf(ifs).value))
    ensures Holds(data[i := entry], idx, before + [ifs])
    ensures data[i].flags == FlagOf(before, FreqOf(ifs).value)
  {
    var list := Firsts(Freqs(before));
    FirstsDistinct(Freqs(before));
    assert list[i] == FreqOf(ifs).value;
    ListOfOneMore(before, ifs);
    OneFlagChanges(data, list, before, ifs, entry, i);
  }

  lemma {:induction false} ListOfOneMore(before: seq<Iface>, ifs: Iface)
    ensures var list, f := Firsts(Freqs(before)), FreqOf(ifs);
      Firsts(Freqs(before + [ifs])) == if f.None? || f.value in list then list else list + [f.value]
  {
    assert (before + [ifs])[..|before|] == before;
    FirstsOfOneMore(before + [ifs]);
  }

  /** One interface of the loop. */
  method CollectOne(ifs: Iface, data: array<UsedFreq>, idx: nat, ghost before: seq<Iface>) returns (idx': nat)
    requires idx < data.Length && Holds(data[..], idx, before)
    modifies data
    ensures Holds(data[..], idx', before + [ifs]) && idx' <= data.Length
  {
    if FreqOf(ifs).None? { HoldsAfterSkip(data[..], idx, before, ifs); }
    if ifs.currentSsid.None? || ifs.assocFreq == 0 { return idx; }
    var freq;
    if ifs.currentSsid.value.mode.Ap? || ifs.currentSsid.value.mode.P2pGo? {
      freq := ifs.currentSsid.value.frequency;
    } else if ifs.bssidKnown {
      freq := ifs.assocFreq;
    } else {
      return idx;
    }
    ghost var was := data[..];
    var i := FindFreq(data, idx, freq);
    ghost var entry := UsedFreq(freq, FlagOf(before + [ifs], freq));
    if i == idx {
      HoldsAfterNew(was, idx, before, ifs, entry);
    } else {
      HoldsAfterSeen(was, idx, before, ifs, entry, i);
    }
    FlagOfOneMore(before, ifs, freq);
    idx' := idx;
    if i == idx {
      data[idx] := data[idx].(freq := freq);
      idx' := idx + 1;
    }
    if ifs.currentSsid.value.mode.Infra? {
      data[i] := data[i].(flags := if ifs.currentSsid.value.p2pGroup then P2pClient else InfraStation);
    }
    assert data[..] == was[i := entry];
  }

  method Clear(data: array<UsedFreq>)
    modifies data
    ensures Holds(data[..], 0, [])
  {
    forall j | 0 <= j < data.Length { data[j] := ZEROED; }
  }

  ghost predicate HasRoom(ifaces: seq<Iface>, length: nat) {
    |Firsts(Freqs(ifaces))| < length
  }

  /** stop: how many interfaces were looked at, namely all, or only as many as it
      took to fill the array (before the last of them there was still room).
      Every index stays in bounds. */
  method GetSharedRadioFreqsData(ifaces: seq<Iface>, data: array<UsedFreq>) returns (idx: nat, ghost stop: nat)
    modifies data
    ensures stop <= |ifaces| && Holds(data[..], idx, ifaces[..stop])
    ensures stop < |ifaces| ==> idx == data.Length
    ensures stop > 0 ==> HasRoom(ifaces[..stop - 1], data.Length)
  {
    Clear(data);
    idx, stop := 0, 0;
    var n := 0;
    assert ifaces[..0] == [];
    while n < |ifaces|
      invariant n <= |ifaces| && stop == n && idx <= data.Length
      invariant Holds(data[..], idx, ifaces[..n])
      invariant n > 0 ==> HasRoom(ifaces[..n - 1], data.Length)
    {
      if idx == data.Length { return; }
      ghost var before := ifaces[..n];
      assert HasRoom(before, data.Length);
      assert before + [ifaces[n]] == ifaces[..n + 1];
      idx := CollectOne(ifaces[n], data, idx, before);
      n := n + 1;
      stop := n;
    }
  }

  /** The first min(length, number of distinct) frequencies in order of first
      occurrence, zeros behind; -1 and all zeros when memory runs out. */
  method GetSharedRadioFreqs(ifaces: seq<Iface>, freqArray: array<int>, haveMemory: bool) returns (num: int)
    modifies freqArray
    ensures !haveMemory ==> num == -1 && forall j :: 0 <= j < freqArray.Length ==> freqArray[j] == 0
    ensures haveMemory ==>
      var all := Firsts(Freqs(ifaces));
      && num == (if |all| < freqArray.Length then |all| else freqArray.Length)
      && freqArray[..num] == all[..num]
      && (forall j :: num <= j < freqArray.Length ==> freqArray[j] == 0)
  {
    forall j | 0 <= j < freqArray.Length { freqArray[j] := 0; }
    if !haveMemory { return -1; }
    var data := new UsedFreq[freqArray.Length](_ => ZEROED);
    var count, stop := GetSharedRadioFreqsData(ifaces, data);
    ghost var list := Firsts(Freqs(ifaces[..stop]));
    assert forall j :: 0 <= j < count ==> data[..][j].freq == list[j];
    assert |list| == count <= freqArray.Length && (stop < |ifaces| ==> count == freqArray.Length);
    CutIsPrefix(ifaces, stop);
    num := count;
    CopyFreqs(data, freqArray, count, list);
  }

  lemma {:induction false} CutIsPrefix(ifaces: seq<Iface>, stop: nat)
    requires stop <= |ifaces|
    ensures Firsts(Freqs(ifaces[..stop])) <= Firsts(Freqs(ifaces))
    ensures stop == |ifaces| ==> Firsts(Freqs(ifaces[..stop])) == Firsts(Freqs(ifaces))
  {
    FreqsOfLonger(ifaces, stop);
    assert ifaces[..|ifaces|] == ifaces;
  }

  /** The copying loop. */
  method CopyFreqs(data: array<UsedFreq>, freqArray: array<int>, count: nat, ghost list: seq<int>)
    requires count == |list| <= data.Length && count <= freqArray.Length
    requires forall j :: 0 <= j < count ==> data[j].freq == list[j]
    modifies freqArray
    ensures freqArray[..count] == list
    ensures forall j :: count <= j < freqArray.Length ==> freqArray[j] == old(freqArray[j])
  {
    for i := 0 to count
      invariant forall j :: 0 <= j < i ==> freqArray[j] == list[j]
      invariant forall j :: i <= j < freqArray.Length ==> freqArray[j] == old(freqArray[j])
    {
      freqArray[i] := data[i].freq;
    }
  }
}
