/** setRadioPower as a state machine over the two properties it writes. */
module RadioPower {

  /** One call: the request, and the airplane-mode setting it finds. */
  datatype PowerCall = PowerCall(on: bool, airplaneSetting: int)
  {
    predicate InApm() { airplaneSetting == 1 }
  }

  datatype Sent = ModemPowerOn | ModemPowerOff | ToSuper

  datatype PowerState = PowerState(flag: string, eboot: string)

  function SentBy(s: PowerState, c: PowerCall): Sent {
    if c.on && s.flag == "true" && !c.InApm() then ModemPowerOn
    else if !c.on && c.InApm() then ModemPowerOff
    else ToSuper
  }

  function Step(s: PowerState, c: PowerCall): PowerState {
    PowerState(if c.InApm() then "true" else "false",
               match SentBy(s, c) case ModemPowerOn => "0" case ModemPowerOff => "1" case ToSuper => s.eboot)
  }

  function After(start: PowerState, calls: seq<PowerCall>): PowerState {
    if calls == [] then start else Step(After(start, calls[..|calls| - 1]), calls[|calls| - 1])
  }

  /** What call number k of the run sends. */
  function SentAt(start: PowerState, calls: seq<PowerCall>, k: nat): Sent
    requires k < |calls|
  {
    SentBy(After(start, calls[..k]), calls[k])
  }

  /** Call k powers the modem on exactly when it asks for on outside airplane
      mode and the previous call (or the persisted start) was inside it. */
  lemma {:induction false} PowerOnExactly(start: PowerState, calls: seq<PowerCall>, k: nat)
    requires k < |calls|
    ensures SentAt(start, calls, k) == ModemPowerOn
      <==> calls[k].on && calls[k].airplaneSetting != 1
           && (if k == 0 then start.flag == "true" else calls[k - 1].airplaneSetting == 1)
    ensures SentAt(start, calls, k) == ModemPowerOff <==> !calls[k].on && calls[k].airplaneSetting == 1
  {
    if k > 0 { FlagTracksLastCall(start, calls[..k]); }
  }

  /** The persisted flag is the text of the last airplane-mode setting seen. */
  lemma {:induction false} FlagTracksLastCall(start: PowerState, calls: seq<PowerCall>)
    requires calls != []
    ensures After(start, calls).flag == if calls[|calls| - 1].airplaneSetting == 1 then "true" else "false"
    ensures After(start, calls).flag == "true" <==> calls[|calls| - 1].airplaneSetting == 1
  {
    assert "true"[0] != "false"[0];
  }

  /** Between two power-ons some call saw airplane mode. */
  lemma {:induction false} PowerOnsAreSeparated(start: PowerState, calls: seq<PowerCall>, i: nat, j: nat)
    requires i < j < |calls|
    requires SentAt(start, calls, i) == ModemPowerOn && SentAt(start, calls, j) == ModemPowerOn
    ensures exists m :: i < m < j && calls[m].airplaneSetting == 1
  {
    PowerOnExactly(start, calls, i);
    PowerOnExactly(start, calls, j);
    assert i < j - 1 && calls[j - 1].airplaneSetting == 1;
  }

  /** k is the last call that sent a modem power request. */
  ghost predicate LastModemRequest(start: PowerState, calls: seq<PowerCall>, k: nat) {
    && k < |calls| && SentAt(start, calls, k) != ToSuper
    && forall m :: k < m < |calls| ==> SentAt(start, calls, m) == ToSuper
  }

  /** The boot flag reads "1" exactly when the latest modem power request was a
      power-off. */
  lemma {:induction false} EbootTracksLastRequest(start: PowerState, calls: seq<PowerCall>, k: nat)
    requires LastModemRequest(start, calls, k)
    ensures After(start, calls).eboot == "1" <==> SentAt(start, calls, k) == ModemPowerOff
    ensures After(start, calls).eboot in {"0", "1"}
    decreases |calls|
  {
    assert "0"[0] != "1"[0];
    var front := calls[..|calls| - 1];
    if k < |front| {
      assert calls[..k] == front[..k];
      forall m | k < m < |front| ensures SentAt(start, front, m) == ToSuper {
        assert front[..m] == calls[..m];
        assert SentAt(start, calls, m) == ToSuper;
      }
      EbootTracksLastRequest(start, front, k);
      assert SentAt(start, calls, |front|) == ToSuper;
    }
  }
}
