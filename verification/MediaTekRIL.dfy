/** MediaTekRIL.java: emergency dialling, data-call slots, radio power and the
    pre-processing of solicited replies. The superclass is seen only through
    the calls made to it. */
module MediaTekRIL {
  import opened JavaText
  import opened SystemProperties
  import opened EccText
  import opened MtkEccList
  import DataCalls
  import RadioPower

  datatype UusInfo = UusInfo(uusType: int, dcs: int, userData: seq<int>)

  datatype Request =
    | SetEccServiceCategory(category: int)
    | EmergencyDial(address: string, clirMode: int, uus: Option<UusInfo>)
    | SetupDataCall(radioTechnology: int, profile: int, apn: string, user: string, password: string,
                    authType: int, protocol: string, interfaceId: int)
    | ModemPowerOn
    | ModemPowerOff
    | DataRegistrationState
    | AllowData
    | GetSimStatus
    | Other(code: int)

  /** result is the message to deliver the answer to, if the caller gave one. */
  datatype RILRequest = RILRequest(serial: nat, request: Request, result: Option<int>)

  /** What goes out, in order: requests sent and calls made on the superclass. */
  datatype Action =
    | Send(rr: RILRequest)
    | SuperDial(address: Option<string>, clirMode: int, uus: Option<UusInfo>, result: Option<int>)
    | SuperSetRadioPower(on: bool, result: Option<int>)
    | SuperDeactivateDataCall(cid: int, reason: int, result: Option<int>)
    | SuperProcessSolicited(position: nat)

  /** A request completed here: answered after being taken off the list, or
      failed because processing it threw. */
  datatype Completion = Answered(serial: nat, notified: bool) | Failed(serial: nat, notified: bool)

  /** How a reply is dealt with: here, by the superclass, or not at all because
      the refresh it triggered threw. */
  datatype Handling = Here(request: RILRequest) | Threw(request: RILRequest) | Forwarded

  /** Every emergency dial directly follows a service-category request. */
  ghost predicate DialsAnnounced(actions: seq<Action>) {
    forall k :: 0 <= k < |actions| && actions[k].Send? && actions[k].rr.request.EmergencyDial? ==>
      k > 0 && actions[k - 1].Send? && actions[k - 1].rr.request.SetEccServiceCategory?
  }

  /** A request is completed at most once, unless every completion is a failure. */
  ghost predicate OnlyFailuresRepeat(completions: seq<Completion>) {
    forall i, j :: 0 <= i < j < |completions| && completions[i].serial == completions[j].serial ==>
      completions[i].Failed? && completions[j].Failed?
  }

  ghost predicate FailedBefore(completions: seq<Completion>, serial: nat) {
    exists i :: 0 <= i < |completions| && completions[i].Failed? && completions[i].serial == serial
  }

  /** Some later completion is for a request completed before. */
  ghost predicate CompletesAgain(before: seq<Completion>, added: seq<Completion>) {
    exists i, j :: 0 <= i < |before| && 0 <= j < |added| && added[j].serial == before[i].serial
  }

  // ---- The registration reply ----

  /** What readStringArray yields: no array, or strings that may be null. */
  type Strings = Option<seq<Option<string>>>

  /** fixupPSBearerDataRegistration; None when it throws, because there is no
      array or the technology is not a number. */
  function FixedUp(reply: Strings): Strings {
    if reply.None? then None
    else
      var response := reply.value;
      if |response| < 4 || response[3].None? then reply
      else
        var technology := ParseInt(response[3].value);
        if technology.None? then None
        else if technology.value >= 128 then Some(response[3 := Some("15")]) else reply
  }

  /** A fixed-up reply announces 15 for a technology of 128 or more and leaves
      everything else alone; it throws exactly when there is no array or a fourth
      string that is not a number. A second fix changes nothing. */
  lemma {:induction false} FixedUpReply(reply: Strings)
    ensures FixedUp(reply).None?
      <==> reply.None? || (|reply.value| >= 4 && reply.value[3].Some? && ParseInt(reply.value[3].value).None?)
    ensures FixedUp(reply).Some? ==>
      var was, now := reply.value, FixedUp(reply).value;
      && |now| == |was| && (forall i :: 0 <= i < |was| && i != 3 ==> now[i] == was[i])
      && (|was| >= 4 && was[3].None? ==> now[3].None?)
      && (|was| >= 4 && was[3].Some? && ParseInt(was[3].value).value < 128 ==> now[3] == was[3])
      && (|was| >= 4 && was[3].Some? && ParseInt(was[3].value).value >= 128 ==>
            now[3].Some? && ParseInt(now[3].value) == Some(15))
    ensures FixedUp(FixedUp(reply)) == FixedUp(reply)
  {
    assert "15"[..1] == "1" && "1"[..0] == "";
    assert DigitsValue("1") == Some(1);
    assert DigitsValue("15") == Some(15);
  }

  /** The replies processed here rather than by the superclass. */
  predicate HandledHere(request: Request) {
    request.EmergencyDial? || request.SetEccServiceCategory? || request.DataRegistrationState?
    || request.SetupDataCall? || request.AllowData?
  }

  /** Words and a cursor; reading past the end gives 0. */
  class Parcel {
    const words: seq<int>
    var pos: nat

    constructor (words: seq<int>)
      ensures this.words == words && pos == 0
    {
      this.words := words;
      pos := 0;
    }

    function WordAt(i: nat): int { if i < |words| then words[i] else 0 }

    function AfterWord(i: nat): nat { if i < |words| then i + 1 else i }

    /** Where the payload of a reply starts: behind the serial and the error. */
    function PayloadAt(i: nat): nat { AfterWord(AfterWord(i)) }

    method ReadInt() returns (v: int)
      modifies this
      ensures v == WordAt(old(pos)) && pos == AfterWord(old(pos))
    {
      v := WordAt(pos);
      pos := AfterWord(pos);
    }

    function DataAvail(): int reads this { |words| - pos }
  }

  class Ril {
    const props: PropertyStore
    const eccList: EccList
    /** What the superclass's responseSetupDataCall finds as the cid in the rest
        of a parcel. */
    const setupCid: (seq<int>, nat) -> int
    /** What readStringArray finds in the rest of a parcel. */
    const stringArray: (seq<int>, nat) -> Strings
    const dataCallCids: array<int>
    var requestList: map<nat, RILRequest>
    var nextSerial: nat
    var actions: seq<Action>
    var completions: seq<Completion>

    // The run so far, for the facts about runs.
    ghost var callEvents: seq<DataCalls.Event>
    ghost var calls: DataCalls.Calls
    ghost var setupOf: map<nat, nat>
    ghost var powerStart: RadioPower.PowerState
    ghost var powerCalls: seq<RadioPower.PowerCall>
    ghost var power: RadioPower.PowerState

    /** What every operation keeps. */
    ghost predicate Valid()
      reads this, dataCallCids, props
    {
      eccList.props == props && TableValid() && SetupsValid() && PowerValid() && ListValid() && DialsAnnounced(actions)
    }

    /** The table is where the run of setups, replies and deactivations leads. */
    ghost predicate TableValid()
      reads this`callEvents, this`calls, dataCallCids
    {
      dataCallCids.Length == 5 && calls == DataCalls.Run(callEvents) && dataCallCids[..] == calls.table
    }

    /** A pending setup carries the id its event in the run asked for. */
    ghost predicate SetupsValid()
      reads this`requestList, this`setupOf, this`calls
    {
      forall s :: s in requestList && requestList[s].request.SetupDataCall? ==>
        && s in setupOf && setupOf[s] in calls.requested
        && calls.requested[setupOf[s]] == requestList[s].request.interfaceId
    }

    /** The two power properties are where the run of power calls leads. */
    ghost predicate PowerValid()
      reads this`powerStart, this`powerCalls, this`power, props
    {
      && power == RadioPower.After(powerStart, powerCalls)
      && power == RadioPower.PowerState(props.Get(AIRPLANE_FLAG), props.Get(EBOOT))
    }

    /** Serials are fresh; what was answered is no longer pending and was completed
        only then; what failed and is still pending is a SIM status request. */
    ghost predicate ListValid()
      reads this`requestList, this`nextSerial, this`completions
    {
      && (forall s :: s in requestList ==> requestList[s].serial == s < nextSerial)
      && (forall i :: 0 <= i < |completions| ==> Settled(completions[i]))
      && OnlyFailuresRepeat(completions)
    }

    ghost predicate Settled(done: Completion)
      reads this`requestList, this`nextSerial
    {
      && done.serial < nextSerial
      && (done.serial in requestList ==> done.Failed? && requestList[done.serial].request.GetSimStatus?)
    }

    constructor (props: PropertyStore, eccList: EccList, setupCid: (seq<int>, nat) -> int,
                 stringArray: (seq<int>, nat) -> Strings)
      requires eccList.props == props
      ensures Valid() && fresh(dataCallCids)
      ensures this.props == props && this.eccList == eccList
      ensures this.setupCid == setupCid && this.stringArray == stringArray && nextSerial == 0
      ensures actions == [] && completions == [] && requestList == map[] && callEvents == [] && powerCalls == []
      ensures dataCallCids[..] == [-1, -1, -1, -1, -1]
    {
      this.props := props;
      this.eccList := eccList;
      this.setupCid := setupCid;
      this.stringArray := stringArray;
      dataCallCids := new int[5](_ => -1);
      requestList, nextSerial, actions, completions := map[], 0, [], [];
      callEvents, calls, setupOf := [], DataCalls.Run([]), map[];
      powerStart := RadioPower.PowerState(props.Get(AIRPLANE_FLAG), props.Get(EBOOT));
      power, powerCalls := RadioPower.PowerState(props.Get(AIRPLANE_FLAG), props.Get(EBOOT)), [];
    }

    /** RILRequest.obtain followed by send: a fresh serial, queued and pending. */
    method ObtainAndSend(request: Request, result: Option<int>)
      requires Valid()
      requires request.EmergencyDial? ==>
        |actions| > 0 && actions[|actions| - 1].Send? && actions[|actions| - 1].rr.request.SetEccServiceCategory?
      requires request.SetupDataCall? ==>
        && |callEvents| > 0 && |callEvents| - 1 in calls.requested
        && calls.requested[|callEvents| - 1] == request.interfaceId
      modifies this`requestList, this`nextSerial, this`actions, this`setupOf
      ensures Valid()
      ensures actions == old(actions) + [Send(RILRequest(old(nextSerial), request, result))]
      ensures requestList == old(requestList)[old(nextSerial) := RILRequest(old(nextSerial), request, result)]
      ensures nextSerial == old(nextSerial) + 1
    {
      var rr := RILRequest(nextSerial, request, result);
      if request.SetupDataCall? { setupOf := setupOf[nextSerial := |callEvents| - 1]; }
      nextSerial := nextSerial + 1;
      requestList := requestList[rr.serial := rr];
      actions := actions + [Send(rr)];
    }

    /** A call left to the superclass. */
    method PassUp(action: Action)
      requires Valid() && !action.Send?
      modifies this`actions
      ensures Valid() && actions == old(actions) + [action]
    {
      actions := actions + [action];
    }

    /** A request the superclass sends on its own account. */
    method SendFromSuper(request: Request, result: Option<int>)
      requires Valid()
      requires !request.EmergencyDial? && !request.SetupDataCall?
      modifies this`requestList, this`nextSerial, this`actions, this`setupOf
      ensures Valid()
      ensures actions == old(actions) + [Send(RILRequest(old(nextSerial), request, result))]
      ensures requestList == old(requestList)[old(nextSerial) := RILRequest(old(nextSerial), request, result)]
    {
      ObtainAndSend(request, result);
    }

    /** Another thread, or the superclass, takes a request off the list. */
    method RemovedElsewhere(serial: nat)
      requires Valid()
      modifies this`requestList
      ensures Valid() && requestList == old(requestList) - {serial}
    {
      requestList := requestList - {serial};
    }

    // ---- Data calls ----

    /** The first available interface id: slot number plus one, or 0. */
    method FirstAvailableId() returns (interfaceId: int)
      requires dataCallCids.Length == 5
      ensures interfaceId == DataCalls.RequestedId(dataCallCids[..])
    {
      interfaceId := 0;
      for i := 0 to 4
        invariant interfaceId == 0
        invariant forall j :: 0 <= j < i ==> dataCallCids[j] >= 0
      {
        if dataCallCids[i] < 0 { return i + 1; }
      }
    }

    method SetupDataCall(radioTechnology: int, profile: int, apn: string, user: string, password: string,
                         authType: int, protocol: string, result: Option<int>)
      requires Valid()
      modifies this`requestList, this`nextSerial, this`actions, this`setupOf, this`callEvents, this`calls
      ensures Valid()
      ensures callEvents == old(callEvents) + [DataCalls.Setup] && nextSerial == old(nextSerial) + 1
      ensures var id := DataCalls.RequestedId(dataCallCids[..]);
        var rr := RILRequest(old(nextSerial), Request.SetupDataCall(radioTechnology + 2, profile, apn, user, password,
                                                                    authType, protocol, id), result);
        actions == old(actions) + [Send(rr)] && requestList == old(requestList)[rr.serial := rr]
    {
      var interfaceId := FirstAvailableId();
      CallHappened(DataCalls.Setup);
      ObtainAndSend(Request.SetupDataCall(radioTechnology + 2, profile, apn, user, password, authType, protocol,
                                          interfaceId), result);
    }

    /** Records an event of the run; the table must already show its effect. */
    ghost method CallHappened(e: DataCalls.Event)
      requires dataCallCids.Length == 5 && |calls.table| == 5 && |calls.owner| == 5
      requires calls == DataCalls.Run(callEvents)
      requires dataCallCids[..] == DataCalls.Step(calls, e, |callEvents|).table
      requires SetupsValid()
      modifies this`callEvents, this`calls
      ensures callEvents == old(callEvents) + [e] && calls == DataCalls.Step(old(calls), e, |old(callEvents)|)
      ensures TableValid() && SetupsValid()
    {
      DataCalls.OwnersAreEarlier(callEvents);
      callEvents := callEvents + [e];
      calls := DataCalls.Step(calls, e, |callEvents| - 1);
      assert callEvents[..|callEvents| - 1] == old(callEvents);
    }

    /** Frees the first of the four slots that holds the cid. */
    method FreeSlot(cid: int)
      requires dataCallCids.Length == 5
      modifies dataCallCids
      ensures dataCallCids[..] == DataCalls.AfterDeactivate(old(dataCallCids[..]), cid)
    {
      ghost var table := dataCallCids[..];
      var i := 0;
      while i < 4
        invariant 0 <= i <= 4 && dataCallCids[..] == table
        invariant forall j :: 0 <= j < i ==> table[j] != cid
      {
        if dataCallCids[i] == cid { break; }
        i := i + 1;
      }
      assert i == DataCalls.SlotOf(table, cid);
      if i < 4 { dataCallCids[i] := -1; }
    }

    method ForgetCall(cid: int)
      requires TableValid() && SetupsValid()
      modifies this`callEvents, this`calls, dataCallCids
      ensures TableValid() && SetupsValid()
      ensures callEvents == old(callEvents) + [DataCalls.Deactivate(cid)]
      ensures dataCallCids[..] == DataCalls.AfterDeactivate(old(dataCallCids[..]), cid)
    {
      FreeSlot(cid);
      CallHappened(DataCalls.Deactivate(cid));
    }

    method DeactivateDataCall(cid: int, reason: int, result: Option<int>)
      requires Valid()
      modifies this`actions, this`callEvents, this`calls, dataCallCids
      ensures Valid()
      ensures callEvents == old(callEvents) + [DataCalls.Deactivate(cid)]
      ensures dataCallCids[..] == DataCalls.AfterDeactivate(old(dataCallCids[..]), cid)
      ensures actions == old(actions) + [SuperDeactivateDataCall(cid, reason, result)]
    {
      ForgetCall(cid);
      assert Valid();
      PassUp(SuperDeactivateDataCall(cid, reason, result));
    }

    /** Stores the reported cid in the first free slot. */
    method FetchCidFromDataCall(p: Parcel)
      requires dataCallCids.Length == 5
      modifies dataCallCids
      ensures dataCallCids[..] == DataCalls.AfterReply(old(dataCallCids[..]), setupCid(p.words, p.pos))
    {
      ghost var table := dataCallCids[..];
      var cid := setupCid(p.words, p.pos);
      if cid >= 0 {
        var i := 0;
        while i < 4
          invariant 0 <= i <= 4 && dataCallCids[..] == table
          invariant forall j :: 0 <= j < i ==> table[j] >= 0
        {
          if dataCallCids[i] < 0 { break; }
          i := i + 1;
        }
        assert i == DataCalls.FirstFree(table);
        if i < 4 { dataCallCids[i] := cid; }
      }
    }

    // ---- Emergency dialling ----

    /** The two sends of an emergency dial, back to back. */
    method SendEmergency(category: int, address: string, clirMode: int, uus: Option<UusInfo>, result: Option<int>)
      requires Valid()
      modifies this`requestList, this`nextSerial, this`actions, this`setupOf
      ensures Valid()
      ensures actions == old(actions)
        + [Send(RILRequest(old(nextSerial), SetEccServiceCategory(category), None)),
           Send(RILRequest(old(nextSerial) + 1, EmergencyDial(address, clirMode, uus), result))]
    {
      ObtainAndSend(SetEccServiceCategory(category), None);
      ObtainAndSend(EmergencyDial(address, clirMode, uus), result);
    }

    /** What a dial finds: Ok(None) for an ordinary number, else the category to
        announce. The category comes from the network property as it is now; a
        null address is never an emergency number. */
    method Classify(address: Option<string>) returns (r: Result<Option<int>>)
      requires eccList.props == props
      modifies eccList`networkEccCategory
      ensures Classified(address, r)
    {
      var emergency := eccList.IsEmergencyNumberExt(address);
      if emergency.NumberFormatException? { return NumberFormatException; }
      if !emergency.value { return Ok(None); }
      var category := eccList.GetServiceCategoryFromEcc(address.value);
      return if category.Ok? then Ok(Some(category.value)) else NumberFormatException;
    }

    ghost predicate IsEmergency(address: string)
      reads props, eccList.props, eccList`customizedEccList
    {
      Accepts(eccList.Network().categories, eccList.Sim1(), eccList.Sim2(), eccList.customizedEccList,
              eccList.networkPortion(address))
    }

    ghost predicate Classified(address: Option<string>, r: Result<Option<int>>)
      reads props, eccList.props, eccList`customizedEccList
    {
      if address.None? then r == Ok(None)
      else if !eccList.Network().ok then r == NumberFormatException
      else if !IsEmergency(address.value) then r == Ok(None)
      else
        (r.Ok? ==> r.value.Some?) &&
        CategoryOf(eccList.Network().categories, eccList.customizedEccList, address.value,
                   if r.Ok? && r.value.Some? then Ok(r.value.value) else NumberFormatException)
    }

    method Dial(address: Option<string>, clirMode: int, uus: Option<UusInfo>, result: Option<int>)
      returns (thrown: bool, ghost found: Result<Option<int>>)
      requires Valid()
      modifies this`requestList, this`nextSerial, this`actions, this`setupOf, eccList`networkEccCategory
      ensures Valid()
      ensures Classified(address, found) && thrown == found.NumberFormatException?
      ensures thrown ==> actions == old(actions)
      ensures !thrown && found.value.None? ==> actions == old(actions) + [SuperDial(address, clirMode, uus, result)]
      ensures !thrown && found.value.Some? ==>
        && address.Some?
        && CategoryOf(eccList.Network().categories, eccList.customizedEccList, address.value, Ok(found.value.value))
        && actions == old(actions)
          + [Send(RILRequest(old(nextSerial), SetEccServiceCategory(found.value.value), None)),
             Send(RILRequest(old(nextSerial) + 1, EmergencyDial(address.value, clirMode, uus), result))]
    {
      var emergency := Classify(address);
      found := emergency;
      thrown := emergency.NumberFormatException?;
      if emergency.Ok? {
        if emergency.value.Some? {
          SendEmergency(emergency.value.value, address.value, clirMode, uus, result);
        } else {
          PassUp(SuperDial(address, clirMode, uus, result));
        }
      }
    }

    // ---- Radio power ----

    /** The property half of setRadioPower: both properties are rewritten, and
        what is to be sent is decided. */
    method RecordPower(on: bool, isInApm: bool, ghost call: RadioPower.PowerCall) returns (sent: RadioPower.Sent)
      requires PowerValid() && call.on == on && call.InApm() == isInApm
      modifies this`powerCalls, this`power, props
      ensures PowerValid() && powerCalls == old(powerCalls) + [call]
      ensures sent == RadioPower.SentBy(old(power), call)
      ensures forall key :: key != AIRPLANE_FLAG && key != EBOOT ==> props.Get(key) == old(props.Get(key))
    {
      PowerKeysDiffer();
      var wasInApm := props.Get(AIRPLANE_FLAG) == "true";
      powerCalls := powerCalls + [call];
      power := RadioPower.Step(power, call);
      assert powerCalls[..|powerCalls| - 1] == old(powerCalls);
      var ok := props.Set(AIRPLANE_FLAG, if isInApm then "true" else "false");
      if on && wasInApm && !isInApm {
        ok := props.Set(EBOOT, "0");
        return RadioPower.ModemPowerOn;
      } else if !on && isInApm {
        ok := props.Set(EBOOT, "1");
        return RadioPower.ModemPowerOff;
      } else {
        return RadioPower.ToSuper;
      }
    }

    method SetRadioPower(on: bool, airplaneSetting: int, result: Option<int>)
      requires Valid()
      modifies this`powerCalls, this`power, this`requestList, this`nextSerial, this`actions, this`setupOf, props
      ensures Valid()
      ensures powerCalls == old(powerCalls) + [RadioPower.PowerCall(on, airplaneSetting)]
      ensures props.Get(AIRPLANE_FLAG) == if airplaneSetting == 1 then "true" else "false"
      ensures on && old(props.Get(AIRPLANE_FLAG)) == "true" && airplaneSetting != 1 ==>
        && actions == old(actions) + [Send(RILRequest(old(nextSerial), ModemPowerOn, result))]
        && props.Get(EBOOT) == "0"
      ensures !on && airplaneSetting == 1 ==>
        && actions == old(actions) + [Send(RILRequest(old(nextSerial), ModemPowerOff, result))]
        && props.Get(EBOOT) == "1"
      ensures (if on then old(props.Get(AIRPLANE_FLAG)) != "true" || airplaneSetting == 1 else airplaneSetting != 1) ==>
        && actions == old(actions) + [SuperSetRadioPower(on, result)]
        && props.Get(EBOOT) == old(props.Get(EBOOT))
      ensures forall key :: key != AIRPLANE_FLAG && key != EBOOT ==> props.Get(key) == old(props.Get(key))
    {
      var isInApm := airplaneSetting == 1;
      var sent := RecordPower(on, isInApm, RadioPower.PowerCall(on, airplaneSetting));
      assert Valid();
      match sent
      case ModemPowerOn => ObtainAndSend(ModemPowerOn, result);
      case ModemPowerOff => ObtainAndSend(ModemPowerOff, result);
      case ToSuper => PassUp(SuperSetRadioPower(on, result));
    }

    // ---- Solicited replies ----

    /** The request a reply answers, provided the reply is good or carries data. */
    ghost function Concerned(p: Parcel): Option<RILRequest>
      reads this, p
    {
      var serial := p.WordAt(p.pos);
      var error := p.WordAt(p.pos + 1);
      if serial >= 0 && serial in requestList && (error == 0 || p.pos + 2 < |p.words|)
      then Some(requestList[serial]) else None
    }

    /** The look at the pending request before it is taken off the list. A SIM
        status refreshes the emergency numbers and goes up unless that throws. */
    method PreProcess(p: Parcel, serial: int, error: int) returns (how: Handling)
      requires Valid()
      modifies props
      ensures Valid()
      ensures var tr := if serial >= 0 && serial in requestList && (error == 0 || p.DataAvail() > 0)
                        then Some(requestList[serial]) else None;
        if tr.None? then how == Forwarded && props.values == old(props.values)
        else if HandledHere(tr.value.request) then how == Here(tr.value) && props.values == old(props.values)
        else if tr.value.request.GetSimStatus? then
          how == (if RefreshAccepted(old(eccList.Sim1()), old(eccList.Sim2())) then Forwarded else Threw(tr.value))
          && Refreshed(old(eccList.Sim1()), old(eccList.Sim2()))
        else how == Forwarded && props.values == old(props.values)
    {
      if serial >= 0 && serial in requestList {
        var tr := requestList[serial];
        if tr.serial == serial && (error == 0 || p.DataAvail() > 0) {
          if HandledHere(tr.request) { return Here(tr); }
          if tr.request.GetSimStatus? {
            var refreshed := RefreshEmergencyList();
            return if refreshed then Forwarded else Threw(tr);
          }
        }
      }
      return Forwarded;
    }

    ghost predicate RefreshAccepted(sim1: string, sim2: string)
      reads eccList
    {
      props.accepts(EccText.UpdatedSlot(sim1, eccList.customizedEccList))
      && props.accepts(EccText.UpdatedSlot(sim2, eccList.customizedEccList))
    }

    /** The SIM properties after a refresh from these texts: the first is
        rewritten if its new text is taken, the second if both are. */
    ghost predicate Refreshed(sim1: string, sim2: string)
      reads eccList, eccList.props
    {
      var text1, text2 := EccText.UpdatedSlot(sim1, eccList.customizedEccList),
                          EccText.UpdatedSlot(sim2, eccList.customizedEccList);
      && eccList.Sim1() == (if props.accepts(text1) then text1 else sim1)
      && eccList.Sim2() == (if props.accepts(text1) && props.accepts(text2) then text2 else sim2)
    }

    method RefreshEmergencyList() returns (ok: bool)
      requires Valid()
      modifies props
      ensures Valid()
      ensures ok == RefreshAccepted(old(eccList.Sim1()), old(eccList.Sim2()))
      ensures Refreshed(old(eccList.Sim1()), old(eccList.Sim2()))
    {
      PowerKeysAreNotEccKeys();
      ok := eccList.UpdateEmergencyNumbersProperty();
    }

    ghost predicate NeverCompleted(serial: nat)
      reads this`completions
    {
      forall i :: 0 <= i < |completions| ==> completions[i].serial != serial
    }

    /** findAndRemoveRequestFromList. A request of ours was never completed while
        it was pending. */
    method TakeOffList(tr: RILRequest)
      requires Valid() && tr.serial in requestList && requestList[tr.serial] == tr && HandledHere(tr.request)
      modifies this`requestList
      ensures Valid() && NeverCompleted(tr.serial) && tr.serial < nextSerial
      ensures requestList == old(requestList) - {tr.serial}
      ensures tr.request.SetupDataCall? ==> tr.serial in setupOf
    {
      assert forall i :: 0 <= i < |completions| ==> Settled(completions[i]);
      requestList := requestList - {tr.serial};
    }

    method Notify(done: Completion)
      requires ListValid() && done.serial < nextSerial
      requires done.Answered? ==> NeverCompleted(done.serial) && done.serial !in requestList
      requires done.Failed? ==> done.serial in requestList && requestList[done.serial].request.GetSimStatus?
      modifies this`completions
      ensures ListValid() && completions == old(completions) + [done]
    {
      assert forall i :: 0 <= i < |completions| ==> Settled(completions[i]);
      completions := completions + [done];
    }

    /** The payload of a setup's reply goes into the table. */
    method StoreReply(p: Parcel, ghost setup: nat)
      requires TableValid() && SetupsValid()
      modifies this`callEvents, this`calls, dataCallCids
      ensures TableValid() && SetupsValid()
      ensures dataCallCids[..] == DataCalls.AfterReply(old(dataCallCids[..]), setupCid(p.words, p.pos))
      ensures callEvents == old(callEvents) + [DataCalls.Reply(setup, setupCid(p.words, p.pos))]
    {
      FetchCidFromDataCall(p);
      CallHappened(DataCalls.Reply(setup, setupCid(p.words, p.pos)));
    }

    method FixupPSBearerDataRegistration(p: Parcel) returns (response: Strings)
      ensures response == FixedUp(stringArray(p.words, p.pos))
    {
      response := stringArray(p.words, p.pos);
      if response.None? { return None; }
      if |response.value| >= 4 && response.value[3].Some? {
        var technology := ParseInt(response.value[3].value);
        if technology.None? { return None; }
        if technology.value >= 128 { response := Some(response.value[3 := Some("15")]); }
      }
    }

    /** Reading the payload of the reply throws. */
    ghost predicate PayloadThrows(request: Request, words: seq<int>, pos: nat) {
      request.DataRegistrationState? && FixedUp(stringArray(words, pos)).None?
    }

    /** The answer to a request already off the list; if its payload throws, the
        request stays off the list and is never completed. */
    method Answer(p: Parcel, tr: RILRequest) returns (thrown: bool)
      requires Valid() && tr.serial !in requestList && tr.serial < nextSerial && NeverCompleted(tr.serial)
      requires tr.request.SetupDataCall? ==> tr.serial in setupOf
      modifies this`completions, this`callEvents, this`calls, dataCallCids
      ensures Valid()
      ensures thrown == PayloadThrows(tr.request, p.words, p.pos)
      ensures completions == old(completions) + if thrown then [] else [Answered(tr.serial, tr.result.Some?)]
      ensures
        if tr.request.SetupDataCall? then
          && dataCallCids[..] == DataCalls.AfterReply(old(dataCallCids[..]), setupCid(p.words, p.pos))
          && callEvents == old(callEvents) + [DataCalls.Reply(setupOf[tr.serial], setupCid(p.words, p.pos))]
        else dataCallCids[..] == old(dataCallCids[..]) && callEvents == old(callEvents)
    {
      if tr.request.SetupDataCall? { StoreReply(p, setupOf[tr.serial]); }
      assert Valid() && NeverCompleted(tr.serial);
      if tr.request.DataRegistrationState? {
        var response := FixupPSBearerDataRegistration(p);
        if response.None? { return true; }
      }
      Notify(Answered(tr.serial, tr.result.Some?));
      return false;
    }

    /** What a verdict completes, given that another thread was faster or not and
        that the payload, of this shape, throws or not. */
    ghost function CompletionsOf(how: Handling, removedMeanwhile: bool, words: seq<int>, pos: nat): seq<Completion> {
      if how.Threw? then [Failed(how.request.serial, how.request.result.Some?)]
      else if how.Here? && !removedMeanwhile && !PayloadThrows(how.request.request, words, pos)
      then [Answered(how.request.serial, how.request.result.Some?)]
      else []
    }

    static predicate StoresSetup(how: Handling, removedMeanwhile: bool) {
      how.Here? && how.request.request.SetupDataCall? && !removedMeanwhile
    }

    /** The verdict fits the request list. */
    ghost predicate Judged(how: Handling)
      reads this`requestList
    {
      !how.Forwarded? ==>
        && how.request.serial in requestList && requestList[how.request.serial] == how.request
        && (how.Here? ==> HandledHere(how.request.request)) && (how.Threw? ==> how.request.request.GetSimStatus?)
    }

    /** A verdict completes a request a second time exactly when it is a failure
        of one that failed before. */
    lemma {:induction false} CompletesAgainExactly(how: Handling, removedMeanwhile: bool, words: seq<int>, pos: nat)
      requires ListValid() && Judged(how)
      ensures CompletesAgain(completions, CompletionsOf(how, removedMeanwhile, words, pos))
        <==> how.Threw? && FailedBefore(completions, how.request.serial)
    {
      assert forall i :: 0 <= i < |completions| ==> Settled(completions[i]);
      var added := CompletionsOf(how, removedMeanwhile, words, pos);
      if how.Threw? && FailedBefore(completions, how.request.serial) {
        var i :| 0 <= i < |completions| && completions[i].Failed? && completions[i].serial == how.request.serial;
        assert added[0].serial == completions[i].serial;
      }
    }

    /** The head of a reply, and the verdict on it. */
    method ReadVerdict(p: Parcel) returns (how: Handling)
      requires Valid()
      modifies props, p
      ensures Valid() && Judged(how) && p.pos == p.PayloadAt(old(p.pos))
      ensures var c := old(Concerned(p));
        if c.Some? && HandledHere(c.value.request) then how == Here(c.value)
        else if c.Some? && c.value.request.GetSimStatus? then
          how == if RefreshAccepted(old(eccList.Sim1()), old(eccList.Sim2())) then Forwarded else Threw(c.value)
        else how == Forwarded
      ensures
        if old(Concerned(p)).Some? && old(Concerned(p)).value.request.GetSimStatus? then
          Refreshed(old(eccList.Sim1()), old(eccList.Sim2()))
        else props.values == old(props.values)
    {
      var serial := p.ReadInt();
      var error := p.ReadInt();
      how := PreProcess(p, serial, error);
    }

    /** Acts on the verdict: the failed request is reported, a reply for the
        superclass is rewound to its entry position, a request of ours is taken
        off the list and answered, unless another thread took it off first. */
    method Dispatch(p: Parcel, how: Handling, dataPosition: nat, removedMeanwhile: bool)
      returns (rr: Option<RILRequest>, thrown: bool)
      requires Valid() && Judged(how)
      modifies this`requestList, this`completions, this`actions, this`callEvents, this`calls, dataCallCids, p
      ensures Valid()
      ensures p.pos == if how.Forwarded? then dataPosition else old(p.pos)
      ensures actions == old(actions) + if how.Forwarded? then [SuperProcessSolicited(dataPosition)] else []
      ensures thrown == (how.Here? && !removedMeanwhile && PayloadThrows(how.request.request, p.words, old(p.pos)))
      ensures rr == if how.Forwarded? || thrown || (how.Here? && removedMeanwhile) then None else Some(how.request)
      ensures requestList == if how.Here? then old(requestList) - {how.request.serial} else old(requestList)
      ensures completions == old(completions) + CompletionsOf(how, removedMeanwhile, p.words, old(p.pos))
      ensures
        if StoresSetup(how, removedMeanwhile) then
          && dataCallCids[..] == DataCalls.AfterReply(old(dataCallCids[..]), setupCid(p.words, p.pos))
          && how.request.serial in setupOf
          && callEvents == old(callEvents) + [DataCalls.Reply(setupOf[how.request.serial], setupCid(p.words, p.pos))]
        else dataCallCids[..] == old(dataCallCids[..]) && callEvents == old(callEvents)
    {
      thrown := false;
      match how
      case Threw(tr) =>
        Notify(Failed(tr.serial, tr.result.Some?));
        rr := Some(tr);
      case Forwarded =>
        p.pos := dataPosition;
        PassUp(SuperProcessSolicited(p.pos));
        rr := None;
      case Here(tr) =>
        TakeOffList(tr);
        rr := None;
        if !removedMeanwhile {
          thrown := Answer(p, tr);
          if !thrown { rr := Some(tr); }
        }
    }

    /** removedMeanwhile: another thread took the request off the list between
        the look at the list and the removal. For a reply left to the superclass
        rr is the superclass's to name; thrown: the payload threw, out of here. */
    method ProcessSolicited(p: Parcel, removedMeanwhile: bool)
      returns (rr: Option<RILRequest>, thrown: bool, ghost how: Handling)
      requires Valid()
      modifies this`requestList, this`completions, this`actions, this`callEvents, this`calls, dataCallCids, props, p
      ensures Valid()
      ensures var c := old(Concerned(p));
        if c.Some? && HandledHere(c.value.request) then how == Here(c.value)
        else if c.Some? && c.value.request.GetSimStatus? then
          how == if RefreshAccepted(old(eccList.Sim1()), old(eccList.Sim2())) then Forwarded else Threw(c.value)
        else how == Forwarded
      ensures how.Forwarded? ==> p.pos == old(p.pos)
      ensures actions == old(actions) + if how.Forwarded? then [SuperProcessSolicited(old(p.pos))] else []
      ensures thrown == (how.Here? && !removedMeanwhile
                         && PayloadThrows(how.request.request, p.words, p.PayloadAt(old(p.pos))))
      ensures rr == if how.Forwarded? || thrown || (how.Here? && removedMeanwhile) then None else Some(how.request)
      ensures requestList == if how.Here? then old(requestList) - {how.request.serial} else old(requestList)
      ensures completions == old(completions) + CompletionsOf(how, removedMeanwhile, p.words, p.PayloadAt(old(p.pos)))
      // A request is completed again exactly by a good reply to a pending SIM
      // status that failed before, when its refresh throws again.
      ensures CompletesAgain(old(completions), completions[|old(completions)|..])
        <==> var c := old(Concerned(p));
             c.Some? && c.value.request.GetSimStatus? && FailedBefore(old(completions), c.value.serial)
             && !RefreshAccepted(old(eccList.Sim1()), old(eccList.Sim2()))
      ensures
        if StoresSetup(how, removedMeanwhile) then
          var cid := setupCid(p.words, p.PayloadAt(old(p.pos)));
          && dataCallCids[..] == DataCalls.AfterReply(old(dataCallCids[..]), cid)
          && how.request.serial in setupOf
          && callEvents == old(callEvents) + [DataCalls.Reply(setupOf[how.request.serial], cid)]
        else dataCallCids[..] == old(dataCallCids[..]) && callEvents == old(callEvents)
      ensures
        if old(Concerned(p)).Some? && old(Concerned(p)).value.request.GetSimStatus? then
          Refreshed(old(eccList.Sim1()), old(eccList.Sim2()))
        else props.values == old(props.values)
    {
      var dataPosition := p.pos;
      var verdict := ReadVerdict(p);
      how := verdict;
      CompletesAgainExactly(how, removedMeanwhile, p.words, p.pos);
      rr, thrown := Dispatch(p, verdict, dataPosition, removedMeanwhile);
      assert completions[|old(completions)|..]
          == CompletionsOf(how, removedMeanwhile, p.words, p.PayloadAt(old(p.pos)));
    }
  }

  // ---- Runs that fall short ----

  /** A phone without SIMs or custom numbers, on a network that lists 911. */
  method PhoneOnNetwork() returns (ril: Ril)
    ensures ril.Valid() && fresh(ril) && fresh(ril.eccList) && ril.nextSerial == 0 && ril.actions == []
    ensures ril.eccList.networkPortion("9-11") == ril.eccList.networkPortion("911") == "911"
    ensures ril.eccList.customizedEccList == []
    ensures ril.props.Get(ECC_CATEGORY_LIST) == "911,5"
  {
    var props := new PropertyStore((v: string) => true);
    var ok := props.Set(ECC_CATEGORY_LIST, "911,5");
    var list := new EccList(props, (s: string) => if s == "9-11" then "911" else s, false, [], true);
    ril := new Ril(props, list, (w: seq<int>, i: nat) => -1, (w: seq<int>, i: nat) => None);
  }

  /** 9-11 is recognised as 911 and looked up as 9-11. */
  lemma {:induction false} SeparatorsHideTheCategory(categories: map<string, int>, sim1: string, sim2: string)
    requires categories == map["911" := 5]
    ensures Accepts(categories, sim1, sim2, [], "911")
    ensures forall r :: CategoryOf(categories, [], "9-11", r) <==> r == Ok(0)
  {
    assert Matches("911", "911") && "911" in categories;
    assert "9-11"[1] != "911"[1] && "9-11"[1] != ("911" + "+")[1];
    OnlyKey("911", "9-11");
  }

  /** A number that is recognised stripped and announced as dialled: the network
      gives 911 category 5, and 9-11 goes out announced with 0. */
  method DialWithSeparators() returns (ril: Ril)
    ensures ril.Valid() && ril.eccList.networkPortion("9-11") == "911"
    ensures ril.props.Get(ECC_CATEGORY_LIST) == "911,5"
    ensures ril.actions == [Send(RILRequest(0, SetEccServiceCategory(0), None)),
                            Send(RILRequest(1, EmergencyDial("9-11", 0, None), None))]
  {
    ril := PhoneOnNetwork();
    OnePairList();
    AnnouncedAsDialled(ril);
    DialAlone(ril, "9-11", 0, None);
  }

  /** The first dial of a phone, of a number announced with this category. */
  method DialAlone(ril: Ril, address: string, category: int, result: Option<int>)
    requires ril.Valid() && ril.nextSerial == 0 && ril.actions == []
    requires forall found :: ril.Classified(Some(address), found) ==> found == Ok(Some(category))
    modifies ril`requestList, ril`nextSerial, ril`actions, ril`setupOf, ril.eccList`networkEccCategory
    ensures ril.Valid()
    ensures ril.actions == [Send(RILRequest(0, SetEccServiceCategory(category), None)),
                            Send(RILRequest(1, EmergencyDial(address, 0, None), result))]
  {
    var thrown, found := ril.Dial(Some(address), 0, None, result);
    assert found == Ok(Some(category));
    ghost var sends := [Send(RILRequest(0, SetEccServiceCategory(category), None)),
                        Send(RILRequest(1, EmergencyDial(address, 0, None), result))];
    assert ril.actions == [] + sends == sends;
  }

  lemma {:induction false} AnnouncedAsDialled(ril: Ril)
    requires ril.eccList.networkPortion("9-11") == "911" && ril.eccList.customizedEccList == []
    requires ril.eccList.Network() == NetworkParse(map["911" := 5], true)
    ensures forall found :: ril.Classified(Some("9-11"), found) ==> found == Ok(Some(0))
  {
    SeparatorsHideTheCategory(ril.eccList.Network().categories, ril.eccList.Sim1(), ril.eccList.Sim2());
  }

  /** A phone whose store refuses the refreshed text, waiting for a SIM status. */
  method PhoneWithFullStore() returns (ril: Ril)
    ensures ril.Valid() && fresh(ril) && fresh(ril.props) && fresh(ril.dataCallCids) && ril.completions == []
    ensures ril.requestList == map[0 := RILRequest(0, GetSimStatus, Some(7))]
    ensures !ril.props.accepts(EccText.UpdatedSlot(ril.eccList.Sim1(), ril.eccList.customizedEccList))
  {
    var props := new PropertyStore((v: string) => |v| <= 5);
    var list := new EccList(props, (s: string) => s, false, [EccEntry("112345", "0", ECC_ALWAYS)], true);
    ril := new Ril(props, list, (w: seq<int>, i: nat) => -1, (w: seq<int>, i: nat) => None);
    ril.SendFromSuper(GetSimStatus, Some(7));
    LongTextRefused();
  }

  method ReplyWithSimStatus(ril: Ril)
    requires ril.Valid() && ril.requestList == map[0 := RILRequest(0, GetSimStatus, Some(7))]
    requires !ril.props.accepts(EccText.UpdatedSlot(ril.eccList.Sim1(), ril.eccList.customizedEccList))
    modifies ril`requestList, ril`completions, ril`actions, ril`callEvents, ril`calls, ril.dataCallCids, ril.props
    ensures ril.Valid() && ril.requestList == old(ril.requestList)
    ensures !ril.props.accepts(EccText.UpdatedSlot(ril.eccList.Sim1(), ril.eccList.customizedEccList))
    ensures ril.completions == old(ril.completions) + [Failed(0, true)]
  {
    var p := new Parcel([0, 0]);
    assert ril.Concerned(p) == Some(RILRequest(0, GetSimStatus, Some(7)));
    var rr, thrown, how := ril.ProcessSolicited(p, false);
  }

  /** A request completed twice: every refresh throws, and the SIM status stays
      pending. */
  method RefreshFailsTwice() returns (ril: Ril)
    ensures ril.Valid() && ril.completions == [Failed(0, true), Failed(0, true)]
  {
    ril := PhoneWithFullStore();
    ReplyWithSimStatus(ril);
    ReplyWithSimStatus(ril);
  }

  lemma {:induction false} LongTextRefused()
    ensures |EccText.UpdatedSlot("", [EccEntry("112345", "0", ECC_ALWAYS)])| == 6
  {
    var entries := [EccEntry("112345", "0", ECC_ALWAYS)];
    assert entries[..0] == [];
    assert ECC_ALWAYS[0] != ECC_NO_SIM[0];
    assert FixedNumbers(entries) == FixedNumbers(entries[..0]) + ["112345"] == ["112345"];
    assert NoSimNumbers(entries) == NoSimNumbers(entries[..0]) == [];
    assert NonEmpty(Split("", ',')) == [] && [] + ["112345"] == ["112345"];
    assert RemoveAll(["112345"], []) == ["112345"] && ["112345"] + [] == ["112345"];
  }

  /** The facts about runs, at the device: at every point of its life each
      occupied slot belonged to a call that asked for exactly that slot's
      interface, if and only if every stored reply found the same first free
      slot as its setup did. */
  lemma {:induction false} TrackedCallsHaveTheirInterfaces(ril: Ril, i: nat)
    requires ril.Valid() && i < 4 && ril.dataCallCids[i] >= 0
    ensures DataCalls.AlwaysMatches(ril.callEvents) <==> DataCalls.AllLandWhereAsked(ril.callEvents)
    ensures DataCalls.AllLandWhereAsked(ril.callEvents) ==>
      ril.calls.owner[i] in ril.calls.requested && ril.calls.requested[ril.calls.owner[i]] == i + 1
    ensures DataCalls.Reported(ril.callEvents, ril.dataCallCids[i])
  {
    DataCalls.MatchesExactly(ril.callEvents);
    DataCalls.EveryRunAccounts(ril.callEvents);
    assert ril.callEvents[..|ril.callEvents|] == ril.callEvents;
    assert ril.dataCallCids[..][i] == ril.dataCallCids[i];
  }
}
