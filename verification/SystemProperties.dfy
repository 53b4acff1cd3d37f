/** The property store the telephony code reads and writes. */
module SystemProperties {

  const ECC_CATEGORY_LIST := "ril.ecc.service.category.list"
  const ECC_LIST_SIM1 := "ril.ecclist"
  const ECC_LIST_SIM2 := "ril.ecclist1"
  const AIRPLANE_FLAG := "persist.radio.airplane.mode.on"
  const EBOOT := "gsm.ril.eboot"

  lemma {:induction false} EccKeysDiffer()
    ensures ECC_LIST_SIM1 != ECC_LIST_SIM2 && ECC_CATEGORY_LIST !in {ECC_LIST_SIM1, ECC_LIST_SIM2}
  {
  }

  lemma {:induction false} PowerKeysAreNotEccKeys()
    ensures AIRPLANE_FLAG !in {ECC_LIST_SIM1, ECC_LIST_SIM2} && EBOOT !in {ECC_LIST_SIM1, ECC_LIST_SIM2}
  {
  }

  lemma {:induction false} PowerKeysDiffer()
    ensures AIRPLANE_FLAG != EBOOT
  {
  }

  /** The platform refuses some values by throwing; which ones is its affair,
      but the short flags are always taken. */
  type Acceptor = accepts: string -> bool |
    accepts("true") && accepts("false") && accepts("0") && accepts("1")
    witness (value: string) => true

  class PropertyStore {
    const accepts: Acceptor
    var values: map<string, string>

    constructor (accepts: Acceptor)
      ensures this.accepts == accepts && values == map[]
    {
      this.accepts := accepts;
      values := map[];
    }

    /** An unset property reads as the empty string. */
    function Get(key: string): string
      reads this
    {
      if key in values then values[key] else ""
    }

    method Set(key: string, value: string) returns (ok: bool)
      modifies this
      ensures ok == accepts(value)
      ensures values == if ok then old(values)[key := value] else old(values)
    {
      ok := accepts(value);
      if ok { values := values[key := value]; }
    }
  }
}
