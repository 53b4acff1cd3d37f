/** What becomes of a reply, by the kind of request it answers, and short runs of
    the device. */
module RilRuns {
  import opened JavaText
  import opened SystemProperties
  import opened EccText
  import opened MtkEccList
  import opened MediaTekRIL
  import DataCalls

  // ---- Replies ----

  /** The reply in the parcel is for this pending request, and it is good or at
      least carries data. */
  ghost predicate Answers(ril: Ril, p: Parcel, serial: nat)
    reads ril, p
  {
    && serial in ril.requestList && p.pos + 2 <= |p.words| && p.words[p.pos] == serial
    && (p.words[p.pos + 1] == 0 || p.pos + 2 < |p.words|)
  }

  /** A setup's reply takes the request off the list and puts the reported cid into
      the first free slot, if there is one; the superclass never sees it. */
  method AnswerSetup(ril: Ril, p: Parcel, serial: nat)
    requires ril.Valid() && Answers(ril, p, serial) && ril.requestList[serial].request.SetupDataCall?
    modifies ril`requestList, ril`completions, ril`actions, ril`callEvents, ril`calls, ril.dataCallCids, ril.props, p
    ensures ril.Valid()
    ensures ril.requestList == old(ril.requestList) - {serial} && ril.actions == old(ril.actions)
    ensures ril.completions == old(ril.completions) + [Answered(serial, old(ril.requestList[serial].result).Some?)]
    ensures serial in old(ril.setupOf)
    ensures var cid := ril.setupCid(p.words, old(p.pos) + 2);
      && ril.callEvents == old(ril.callEvents) + [DataCalls.Reply(old(ril.setupOf)[serial], cid)]
      && (cid < 0 || (forall i :: 0 <= i < 4 ==> old(ril.dataCallCids[..])[i] >= 0) ==>
            ril.dataCallCids[..] == old(ril.dataCallCids[..]))
      && (forall i :: 0 <= i < 4 && cid >= 0 && old(ril.dataCallCids[..])[i] < 0
                      && (forall j :: 0 <= j < i ==> old(ril.dataCallCids[..])[j] >= 0) ==>
            ril.dataCallCids[..] == old(ril.dataCallCids[..])[i := cid])
  {
    var rr, thrown, how := ril.ProcessSolicited(p, false);
  }

  /** The replies to the other four kinds: off the list, and completed unless a
      registration's payload throws; the superclass never sees them. */
  method AnswerOwn(ril: Ril, p: Parcel, serial: nat) returns (thrown: bool)
    requires ril.Valid() && Answers(ril, p, serial)
    requires var request := ril.requestList[serial].request;
      request.EmergencyDial? || request.SetEccServiceCategory? || request.DataRegistrationState? || request.AllowData?
    modifies ril`requestList, ril`completions, ril`actions, ril`callEvents, ril`calls, ril.dataCallCids, ril.props, p
    ensures ril.Valid()
    ensures ril.requestList == old(ril.requestList) - {serial} && ril.actions == old(ril.actions)
    ensures thrown <==> old(ril.requestList[serial]).request.DataRegistrationState?
                        && FixedUp(ril.stringArray(p.words, old(p.pos) + 2)).None?
    ensures ril.completions == old(ril.completions)
      + if thrown then [] else [Answered(serial, old(ril.requestList[serial].result).Some?)]
    ensures ril.dataCallCids[..] == old(ril.dataCallCids[..]) && ril.callEvents == old(ril.callEvents)
  {
    var rr;
    ghost var how;
    rr, thrown, how := ril.ProcessSolicited(p, false);
  }

  /** A reply to one of these five kinds whose request another thread took off the
      list in between is dropped: nothing is stored, completed or forwarded. */
  method AnswerTooLate(ril: Ril, p: Parcel, serial: nat) returns (rr: Option<RILRequest>)
    requires ril.Valid() && Answers(ril, p, serial)
    requires var request := ril.requestList[serial].request;
      || request.EmergencyDial? || request.SetEccServiceCategory? || request.DataRegistrationState?
      || request.AllowData? || request.SetupDataCall?
    modifies ril`requestList, ril`completions, ril`actions, ril`callEvents, ril`calls, ril.dataCallCids, ril.props, p
    ensures ril.Valid() && rr == None
    ensures ril.actions == old(ril.actions) && ril.completions == old(ril.completions)
    ensures ril.dataCallCids[..] == old(ril.dataCallCids[..]) && ril.callEvents == old(ril.callEvents)
  {
    var thrown;
    ghost var how;
    rr, thrown, how := ril.ProcessSolicited(p, true);
  }

  /** A SIM status refreshes both properties and goes up; if a text is refused, the
      request is failed instead, and stays on the list. */
  method AnswerSimStatus(ril: Ril, p: Parcel, serial: nat) returns (rr: Option<RILRequest>)
    requires ril.Valid() && Answers(ril, p, serial) && ril.requestList[serial].request.GetSimStatus?
    modifies ril`requestList, ril`completions, ril`actions, ril`callEvents, ril`calls, ril.dataCallCids, ril.props, p
    ensures ril.Valid() && ril.requestList == old(ril.requestList)
    ensures var text1, text2 := UpdatedSlot(old(ril.eccList.Sim1()), ril.eccList.customizedEccList),
                                UpdatedSlot(old(ril.eccList.Sim2()), ril.eccList.customizedEccList);
      if ril.props.accepts(text1) && ril.props.accepts(text2) then
        && ril.eccList.Sim1() == text1 && ril.eccList.Sim2() == text2 && ril.completions == old(ril.completions)
        && p.pos == old(p.pos) && ril.actions == old(ril.actions) + [SuperProcessSolicited(old(p.pos))]
      else
        && ril.eccList.Sim1() == (if ril.props.accepts(text1) then text1 else old(ril.eccList.Sim1()))
        && ril.eccList.Sim2() == old(ril.eccList.Sim2()) && ril.actions == old(ril.actions)
        && rr == Some(old(ril.requestList[serial]))
        && ril.completions == old(ril.completions) + [Failed(serial, old(ril.requestList[serial].result).Some?)]
  {
    var thrown;
    ghost var how;
    rr, thrown, how := ril.ProcessSolicited(p, false);
  }

  /** Everything else goes up, once, from where the parcel was entered: replies to
      other requests, to none that is pending, and bad ones without data. */
  method AnswerOther(ril: Ril, p: Parcel, removedMeanwhile: bool)
    requires ril.Valid()
    requires forall serial: nat :: Answers(ril, p, serial) ==>
      ril.requestList[serial].request.ModemPowerOn? || ril.requestList[serial].request.ModemPowerOff?
      || ril.requestList[serial].request.Other?
    requires p.pos + 2 <= |p.words|
    modifies ril`requestList, ril`completions, ril`actions, ril`callEvents, ril`calls, ril.dataCallCids, ril.props, p
    ensures ril.Valid() && p.pos == old(p.pos)
    ensures ril.actions == old(ril.actions) + [SuperProcessSolicited(p.pos)]
    ensures ril.requestList == old(ril.requestList) && ril.completions == old(ril.completions)
    ensures ril.dataCallCids[..] == old(ril.dataCallCids[..]) && ril.callEvents == old(ril.callEvents)
    ensures ril.props.values == old(ril.props.values)
  {
    ghost var serial := p.words[p.pos];
    assert serial >= 0 && ril.Concerned(p).Some? ==> Answers(ril, p, serial);
    var rr, thrown, how := ril.ProcessSolicited(p, removedMeanwhile);
  }

  // ---- Runs ----

  /** 911 with the category the network gives it. */
  method DialOnNetwork() returns (ril: Ril)
    ensures ril.Valid() && ril.props.Get(ECC_CATEGORY_LIST) == "911,5"
    ensures ril.actions == [Send(RILRequest(0, SetEccServiceCategory(5), None)),
                            Send(RILRequest(1, EmergencyDial("911", 0, None), Some(7)))]
  {
    ril := PhoneOnNetwork();
    OnePairList();
    ListedCategory(ril);
    DialAlone(ril, "911", 5, Some(7));
  }

  lemma {:induction false} ListedCategory(ril: Ril)
    requires ril.eccList.networkPortion("911") == "911" && ril.eccList.customizedEccList == []
    requires ril.eccList.Network() == NetworkParse(map["911" := 5], true)
    ensures forall found :: ril.Classified(Some("911"), found) ==> found == Ok(Some(5))
  {
    var categories := ril.eccList.Network().categories;
    assert Matches("911", "911") && "911" in categories;
    assert Accepts(categories, ril.eccList.Sim1(), ril.eccList.Sim2(), [], "911");
    OnlyKey("911", "911");
  }

  /** A phone that reads the cid as the next word of a reply. */
  method PhoneForData() returns (ril: Ril)
    ensures ril.Valid() && fresh(ril) && fresh(ril.props) && fresh(ril.dataCallCids)
    ensures ril.nextSerial == 0 && ril.actions == [] && ril.requestList == map[]
    ensures ril.dataCallCids[..] == [-1, -1, -1, -1, -1]
    ensures ril.setupCid([0, 0, 5], 2) == 5
  {
    var props := new PropertyStore((v: string) => true);
    var list := new EccList(props, (s: string) => s, false, [], true);
    ril := new Ril(props, list, (w: seq<int>, i: nat) => if i < |w| then w[i] else -1, (w: seq<int>, i: nat) => None);
  }

  function Setup(interfaceId: int): Request {
    Request.SetupDataCall(3, 0, "apn", "", "", 0, "IP", interfaceId)
  }

  /** A setup that finds every slot before the given one taken, and that one free. */
  method SetUpAt(ril: Ril, id: int)
    requires ril.Valid() && 1 <= id <= 4 && ril.dataCallCids[..][id - 1] < 0
    requires forall i :: 0 <= i < id - 1 ==> ril.dataCallCids[..][i] >= 0
    modifies ril`requestList, ril`nextSerial, ril`actions, ril`setupOf, ril`callEvents, ril`calls
    ensures ril.Valid() && ril.nextSerial == old(ril.nextSerial) + 1
    ensures var rr := RILRequest(old(ril.nextSerial), Setup(id), None);
      && ril.actions == old(ril.actions) + [Send(rr)]
      && ril.requestList == old(ril.requestList)[old(ril.nextSerial) := rr]
  {
    ril.SetupDataCall(1, 0, "apn", "", "", 0, "IP", None);
  }

  method TakeDown(ril: Ril)
    requires ril.Valid() && ril.dataCallCids[..] == [5, -1, -1, -1, -1]
    modifies ril`actions, ril`callEvents, ril`calls, ril.dataCallCids
    ensures ril.Valid() && ril.dataCallCids[..] == [-1, -1, -1, -1, -1]
    ensures ril.actions == old(ril.actions) + [SuperDeactivateDataCall(5, 0, None)]
  {
    ghost var table := ril.dataCallCids[..];
    assert table[0] == 5 && table[0 := -1] == [-1, -1, -1, -1, -1];
    ril.DeactivateDataCall(5, 0, None);
  }

  method FirstAnswer(ril: Ril)
    requires ril.Valid() && ril.requestList == map[0 := RILRequest(0, Setup(1), None)]
    requires ril.dataCallCids[..] == [-1, -1, -1, -1, -1] && ril.setupCid([0, 0, 5], 2) == 5
    modifies ril`requestList, ril`completions, ril`actions, ril`callEvents, ril`calls, ril.dataCallCids, ril.props
    ensures ril.Valid() && ril.requestList == map[] && ril.actions == old(ril.actions)
    ensures ril.dataCallCids[..] == [5, -1, -1, -1, -1]
  {
    var p := new Parcel([0, 0, 5]);
    ghost var table := ril.dataCallCids[..];
    assert table[0] == -1;
    AnswerSetup(ril, p, 0);
    assert table[0 := 5] == [5, -1, -1, -1, -1];
  }

  method SecondCallAndThird(ril: Ril)
    requires ril.Valid() && ril.nextSerial == 1 && ril.dataCallCids[..] == [5, -1, -1, -1, -1]
    modifies ril`requestList, ril`nextSerial, ril`actions, ril`setupOf, ril`callEvents, ril`calls, ril.dataCallCids
    ensures ril.Valid() && ril.dataCallCids[..] == [-1, -1, -1, -1, -1]
    ensures ril.actions == old(ril.actions)
      + [Send(RILRequest(1, Setup(2), None)), SuperDeactivateDataCall(5, 0, None), Send(RILRequest(2, Setup(1), None))]
  {
    SetUpAt(ril, 2);
    TakeDown(ril);
    SetUpAt(ril, 1);
  }

  /** Two calls after one another: the first asks for interface 1 and its cid goes
      into the first slot; so the second asks for interface 2, and once the first
      is taken down a third asks for interface 1 again. */
  method CallAfterCall() returns (ril: Ril)
    ensures ril.Valid() && ril.dataCallCids[..] == [-1, -1, -1, -1, -1]
    ensures ril.actions == [Send(RILRequest(0, Setup(1), None)), Send(RILRequest(1, Setup(2), None)),
                            SuperDeactivateDataCall(5, 0, None), Send(RILRequest(2, Setup(1), None))]
  {
    ril := PhoneForData();
    SetUpAt(ril, 1);
    FirstAnswer(ril);
    SecondCallAndThird(ril);
  }
}
