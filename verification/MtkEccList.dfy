/** The emergency-number store of MtkEccList.java. */
module MtkEccList {
  import opened JavaText
  import opened SystemProperties
  import opened EccText
  import opened EccCta
  import opened EccUpdates

  datatype Result<+T> = Ok(value: T) | NumberFormatException

  /** The first custom entry that matches the number. */
  ghost predicate FirstMatchAt(entries: seq<EccEntry>, i: int, number: string) {
    && 0 <= i < |entries| && Matches(entries[i].ecc, number)
    && forall j :: 0 <= j < i ==> !Matches(entries[j].ecc, number)
  }

  /** A custom entry's category attribute. */
  function CategoryText(category: string): Result<int> {
    if ParseInt(category).Some? then Ok(ParseInt(category).value) else NumberFormatException
  }

  /** A category the lookup may answer with: that of a matching network key
      (which one is up to hash order), else that of the first matching custom
      entry, else 0. */
  ghost predicate CategoryOf(categories: map<string, int>, entries: seq<EccEntry>, number: string, r: Result<int>) {
    if NetworkAccepts(categories, number) then
      exists key :: key in categories && Matches(key, number) && r == Ok(categories[key])
    else if exists i :: FirstMatchAt(entries, i, number) then
      exists i :: FirstMatchAt(entries, i, number)
                  && r == CategoryText(entries[i].category)
    else r == Ok(0)
  }

  class EccList {
    const props: PropertyStore
    /** PhoneNumberUtils.extractNetworkPortionAlt, a framework function. */
    const networkPortion: string -> string
    const ctaSet: bool
    var customizedEccList: seq<EccEntry>
    var networkEccCategory: map<string, int>

    ghost function Sim1(): string reads props { props.Get(ECC_LIST_SIM1) }
    ghost function Sim2(): string reads props { props.Get(ECC_LIST_SIM2) }

    /** What the network's list says now. */
    ghost function Network(): NetworkParse
      reads props
    {
      Collect(NetworkItems(props.Get(ECC_CATEGORY_LIST)))
    }

    constructor (props: PropertyStore, networkPortion: string -> string, ctaSet: bool,
                 parsed: seq<EccEntry>, completed: bool)
      ensures this.props == props && this.networkPortion == networkPortion && this.ctaSet == ctaSet
      ensures customizedEccList == if completed && ctaSet then MergeAll(parsed, CTA_NUMBERS) else parsed
      ensures networkEccCategory == map[]
    {
      this.props := props;
      this.networkPortion := networkPortion;
      this.ctaSet := ctaSet;
      customizedEccList := [];
      networkEccCategory := map[];
      new;
      ParseEccList(parsed, completed);
    }

    /** parsed: the entries read from the file; completed: no exception ended
        the reading early, in which case the CTA merge is skipped. */
    method ParseEccList(parsed: seq<EccEntry>, completed: bool)
      modifies this`customizedEccList
      ensures customizedEccList == if completed && ctaSet then MergeAll(parsed, CTA_NUMBERS) else parsed
      ensures completed && ctaSet ==> IsMerge(customizedEccList, parsed, CTA_NUMBERS)
    {
      customizedEccList := parsed;
      if completed && ctaSet {
        MergeNumbers(CTA_NUMBERS);
        MergeShape(parsed, CTA_NUMBERS);
      }
    }

    /** The CTA loop: each number overwrites its first entry or is appended. */
    method MergeNumbers(numbers: seq<string>)
      modifies this`customizedEccList
      ensures customizedEccList == MergeAll(old(customizedEccList), numbers)
    {
      for n := 0 to |numbers|
        invariant customizedEccList == MergeAll(old(customizedEccList), numbers[..n])
      {
        var record := CtaEntry(numbers[n]);
        var found := false;
        var index := 0;
        while index < |customizedEccList|
          invariant index <= |customizedEccList|
          invariant forall j :: 0 <= j < index ==> customizedEccList[j].ecc != numbers[n]
          invariant !found
        {
          if customizedEccList[index].ecc == numbers[n] {
            found := true;
            break;
          }
          index := index + 1;
        }
        assert index == FirstIndex(customizedEccList, numbers[n]);
        if found {
          customizedEccList := customizedEccList[index := record];
        } else {
          customizedEccList := customizedEccList + [record];
        }
        assert numbers[..n + 1][..n] == numbers[..n];
      }
      assert numbers[..|numbers|] == numbers;
    }

    /** Reads the network's list into the hash map; false when parseInt throws,
        leaving the pairs read so far. */
    method ReadNetworkCategories() returns (ok: bool)
      modifies this`networkEccCategory
      ensures networkEccCategory == Network().categories && ok == Network().ok
    {
      networkEccCategory := map[];
      var list := props.Get(ECC_CATEGORY_LIST);
      ok := true;
      if list != "" {
        var texts := Split(list, ';');
        ghost var items := NetworkItems(list);
        var i := 0;
        while i < |texts|
          invariant i <= |texts|
          invariant Collect(items[..i]) == NetworkParse(networkEccCategory, true)
        {
          assert items[..i + 1][..i] == items[..i];
          match ReadItem(texts[i]) {
            case Skipped =>
            case Malformed =>
              CollectStops(items, i + 1);
              return false;
            case Pair(key, category) =>
              networkEccCategory := networkEccCategory[key := category];
          }
          i := i + 1;
        }
        assert items[..i] == items;
      }
    }

    method AnyKeyMatches(number: string) returns (r: bool)
      ensures r <==> NetworkAccepts(networkEccCategory, number)
    {
      var rest := networkEccCategory.Keys;
      while rest != {}
        invariant rest <= networkEccCategory.Keys
        invariant forall key :: key in networkEccCategory && key !in rest ==> !Matches(key, number)
      {
        var emergencyNum :| emergencyNum in rest;
        if Matches(emergencyNum, number) { return true; }
        rest := rest - {emergencyNum};
      }
      return false;
    }

    static method AnyMatches(eccs: seq<string>, number: string) returns (r: bool)
      ensures r <==> MatchesAny(eccs, number)
    {
      for i := 0 to |eccs|
        invariant forall j :: 0 <= j < i ==> !Matches(eccs[j], number)
      {
        if Matches(eccs[i], number) { return true; }
      }
      return false;
    }

    /** Accepts is the query in one formula; a null number is never one, and a
        malformed network list makes the query throw. */
    method IsEmergencyNumberExt(number: Option<string>) returns (r: Result<bool>)
      modifies this`networkEccCategory
      ensures number.None? ==> r == Ok(false) && networkEccCategory == old(networkEccCategory)
      ensures number.Some? ==>
        && networkEccCategory == Network().categories
        && r == if Network().ok
                then Ok(Accepts(Network().categories, Sim1(), Sim2(), customizedEccList, networkPortion(number.value)))
                else NumberFormatException
    {
      if number.None? { return Ok(false); }
      var stripped := networkPortion(number.value);
      var ok := ReadNetworkCategories();
      if !ok { return NumberFormatException; }
      var found := AnyKeyMatches(stripped);
      if found { return Ok(true); }

      var simInserted := false;
      var numbers := props.Get(ECC_LIST_SIM1);
      if numbers != "" {
        found := AnyMatches(Split(numbers, ','), stripped);
        if found { return Ok(true); }
        simInserted := true;
      }
      numbers := props.Get(ECC_LIST_SIM2);
      if numbers != "" {
        found := AnyMatches(Split(numbers, ','), stripped);
        if found { return Ok(true); }
        simInserted := true;
      }

      if simInserted {
        for i := 0 to |customizedEccList|
          invariant forall j :: 0 <= j < i ==>
            customizedEccList[j].condition == ECC_NO_SIM || !Matches(customizedEccList[j].ecc, stripped)
        {
          if customizedEccList[i].condition != ECC_NO_SIM && Matches(customizedEccList[i].ecc, stripped) {
            return Ok(true);
          }
        }
      } else {
        for i := 0 to |customizedEccList|
          invariant forall j :: 0 <= j < i ==> !Matches(customizedEccList[j].ecc, stripped)
        {
          if Matches(customizedEccList[i].ecc, stripped) { return Ok(true); }
        }
      }
      return Ok(false);
    }

    method GetServiceCategoryFromEcc(number: string) returns (r: Result<int>)
      ensures CategoryOf(networkEccCategory, customizedEccList, number, r)
    {
      var rest := networkEccCategory.Keys;
      while rest != {}
        invariant rest <= networkEccCategory.Keys
        invariant forall key :: key in networkEccCategory && key !in rest ==> !Matches(key, number)
      {
        var emergencyNum :| emergencyNum in rest;
        if Matches(emergencyNum, number) { return Ok(networkEccCategory[emergencyNum]); }
        rest := rest - {emergencyNum};
      }
      for i := 0 to |customizedEccList|
        invariant forall j :: 0 <= j < i ==> !Matches(customizedEccList[j].ecc, number)
      {
        if Matches(customizedEccList[i].ecc, number) {
          assert FirstMatchAt(customizedEccList, i, number);
          var category := ParseInt(customizedEccList[i].category);
          return if category.Some? then Ok(category.value) else NumberFormatException;
        }
      }
      return Ok(0);
    }

    /** Builds the two lists of custom numbers. */
    method CustomLists() returns (fixedList: seq<string>, fixedListNoSim: seq<string>)
      ensures fixedList == FixedNumbers(customizedEccList) && fixedListNoSim == NoSimNumbers(customizedEccList)
    {
      fixedList, fixedListNoSim := [], [];
      for i := 0 to |customizedEccList|
        invariant fixedList == FixedNumbers(customizedEccList[..i])
        invariant fixedListNoSim == NoSimNumbers(customizedEccList[..i])
      {
        var ecc := customizedEccList[i].ecc;
        if customizedEccList[i].condition != ECC_NO_SIM {
          fixedList := fixedList + [ecc];
        } else if ecc != "" {
          fixedListNoSim := fixedListNoSim + [ecc];
        }
        assert customizedEccList[..i + 1][..i] == customizedEccList[..i];
      }
      assert customizedEccList[..|customizedEccList|] == customizedEccList;
    }

    /** Rewrites one SIM property from the custom lists. */
    method UpdateSlot(key: string, fixedList: seq<string>, fixedListNoSim: seq<string>) returns (ok: bool)
      modifies props
      ensures var text := Join(MergedNumbers(old(props.Get(key)), fixedList, fixedListNoSim), ',');
        && ok == props.accepts(text)
        && props.values == (if ok then old(props.values)[key := text] else old(props.values))
    {
      var numbers := props.Get(key);
      var pieces := Split(numbers, ',');
      var simList: seq<string> := [];
      for i := 0 to |pieces|
        invariant simList == NonEmpty(pieces[..i])
        invariant props.values == old(props.values)
      {
        assert pieces[..i + 1] == pieces[..i] + [pieces[i]];
        NonEmptyAppend(pieces[..i], [pieces[i]]);
        if pieces[i] != "" { simList := simList + [pieces[i]]; }
      }
      assert pieces[..|pieces|] == pieces;
      assert simList == NonEmpty(pieces);
      simList := RemoveAll(simList, fixedList) + fixedList;
      if numbers == "" {
        simList := RemoveAll(simList, fixedListNoSim) + fixedListNoSim;
      }
      assert simList == MergedNumbers(numbers, fixedList, fixedListNoSim);
      ok := props.Set(key, Join(simList, ','));
    }

    /** Both SIM properties are rewritten; if the store refuses the first text,
        the exception leaves the second as it was. */
    method UpdateEmergencyNumbersProperty() returns (ok: bool)
      modifies props
      ensures var text1, text2 := UpdatedSlot(old(Sim1()), customizedEccList),
                                  UpdatedSlot(old(Sim2()), customizedEccList);
        && ok == (props.accepts(text1) && props.accepts(text2))
        && Sim1() == (if props.accepts(text1) then text1 else old(Sim1()))
        && Sim2() == (if ok then text2 else old(Sim2()))
      ensures forall key :: key != ECC_LIST_SIM1 && key != ECC_LIST_SIM2 ==> props.Get(key) == old(props.Get(key))
    {
      var fixedList, fixedListNoSim := CustomLists();
      EccKeysDiffer();
      ok := UpdateSlot(ECC_LIST_SIM1, fixedList, fixedListNoSim);
      if ok {
        ok := UpdateSlot(ECC_LIST_SIM2, fixedList, fixedListNoSim);
      }
    }
  }

  /** The class-level form: what a query answers after an update, in terms of
      what it answered before. */
  method QueryAcrossUpdate(list: EccList, number: string) returns (before: Result<bool>, after: Result<bool>, ok: bool)
    requires PlainEntries(list.customizedEccList)
    requires WellFormed(list.Sim1()) && WellFormed(list.Sim2())
    modifies list`networkEccCategory, list.props
    ensures ok && before.Ok? ==> after == Ok(
      before.value || ((old(list.Sim1()) == "") != (old(list.Sim2()) == "")
                       && MatchesAny(NoSimNumbers(list.customizedEccList), list.networkPortion(number))))
  {
    before := list.IsEmergencyNumberExt(Some(number));
    WellFormedUpdate(list.networkEccCategory, list.Sim1(), list.Sim2(), list.customizedEccList,
                     list.networkPortion(number));
    EccKeysDiffer();
    ok := list.UpdateEmergencyNumbersProperty();
    after := list.IsEmergencyNumberExt(Some(number));
  }

  /** The number without its last character. */
  function Bare(number: string): string {
    if number == "" then "" else number[..|number| - 1]
  }

  /** The answer depends on hash order exactly when the number ends in a plus
      and the network lists it both with and without, under two categories. */
  lemma {:induction false} CategoryDetermined(categories: map<string, int>, entries: seq<EccEntry>, number: string)
    ensures (forall r1, r2 :: CategoryOf(categories, entries, number, r1) && CategoryOf(categories, entries, number, r2)
               ==> r1 == r2)
      <==> !(number == Bare(number) + "+" && number in categories && Bare(number) in categories
             && categories[number] != categories[Bare(number)])
  {
    var bare := Bare(number);
    assert forall key :: Matches(key, number) <==> key == number || (key == bare && number == bare + "+") by {
      forall key ensures Matches(key, number) <==> key == number || (key == bare && number == bare + "+") {
        if key + "+" == number { assert bare == key; }
      }
    }
    if number == bare + "+" && number in categories && bare in categories && categories[number] != categories[bare] {
      assert Matches(number, number) && Matches(bare, number);
      assert CategoryOf(categories, entries, number, Ok(categories[number]));
      assert CategoryOf(categories, entries, number, Ok(categories[bare]));
    }
  }

  ghost predicate NamedAt(items: seq<Item>, i: int, key: string) {
    0 <= i < |items| && items[i].Pair? && items[i].key == key
  }

  lemma {:induction false} KeysArePairs(items: seq<Item>, key: string)
    requires Collect(items).ok
    ensures key in Collect(items).categories <==> exists i :: NamedAt(items, i, key)
  {
    if items != [] {
      var n := |items| - 1;
      var front := items[..n];
      KeysArePairs(front, key);
      if NamedAt(items, n, key) {
      } else if i :| NamedAt(front, i, key) {
        assert NamedAt(items, i, key);
      } else if i :| NamedAt(items, i, key) {
        assert NamedAt(front, i, key);
      }
    }
  }

  /** What is announced for a number, read off the network list itself: the
      category of the last pair for some matching number if any pair matches;
      otherwise that of the first matching custom entry, otherwise 0. */
  lemma {:induction false} CategoryOffTheList(items: seq<Item>, entries: seq<EccEntry>, number: string, r: Result<int>)
    requires Collect(items).ok && CategoryOf(Collect(items).categories, entries, number, r)
    ensures if exists key, i :: NamedAt(items, i, key) && Matches(key, number)
            then exists key, i :: Matches(key, number) && r.Ok? && LastPairAt(items, i, key, r.value)
            else if exists j :: FirstMatchAt(entries, j, number)
            then exists j :: FirstMatchAt(entries, j, number)
                             && (if r.Ok? then ParseInt(entries[j].category) == Some(r.value)
                                 else ParseInt(entries[j].category) == None)
            else r == Ok(0)
  {
    var categories := Collect(items).categories;
    if named, i :| NamedAt(items, i, named) && Matches(named, number) {
      KeysArePairs(items, named);
      assert NetworkAccepts(categories, number);
      var key :| key in categories && Matches(key, number) && r == Ok(categories[key]);
      LastValuePerKeyWins(items, key, r.value);
    } else if NetworkAccepts(categories, number) {
      var key :| key in categories && Matches(key, number);
      KeysArePairs(items, key);
      assert false;
    }
  }

  /** The lookup cannot tell the two numbers apart, whatever is listed. */
  ghost predicate SameLookup(a: string, b: string) {
    forall categories, entries, r :: CategoryOf(categories, entries, a, r) <==> CategoryOf(categories, entries, b, r)
  }

  /** A number is recognised by its stripped form but its category is looked up
      as dialled. The two lookups agree in every state of the lists if and only
      if stripping changes nothing. */
  lemma {:induction false} LookupAgreesExactly(list: EccList, address: string)
    ensures SameLookup(address, list.networkPortion(address)) <==> list.networkPortion(address) == address
  {
    var stripped := list.networkPortion(address);
    if stripped != address {
      // A key that matches the one number and not the other.
      var key := if stripped == address + "+" then stripped else address;
      var other := if key == address then stripped else address;
      assert Matches(key, key) && !Matches(key, other);
      OnlyKey(key, key);
      OnlyKey(key, other);
      assert CategoryOf(map[key := 5], [], key, Ok(5)) && !CategoryOf(map[key := 5], [], other, Ok(5));
    }
  }

  /** With a single network number and no custom entries the answer is its
      category for the numbers it matches, and 0 for all others. */
  lemma {:induction false} OnlyKey(key: string, number: string)
    ensures forall r :: CategoryOf(map[key := 5], [], number, r) <==> r == Ok(if Matches(key, number) then 5 else 0)
  {
    var categories := map[key := 5];
    if Matches(key, number) { assert key in categories; }
    assert NetworkAccepts(categories, number) <==> Matches(key, number);
    assert forall i :: !FirstMatchAt([], i, number);
  }

  /** What a network list of the one pair "911,5" reads as. */
  lemma {:induction false} OnePairList()
    ensures Collect(NetworkItems("911,5")) == NetworkParse(map["911" := 5], true)
  {
    assert "5"[..0] == "" && DigitsValue("5") == Some(5) && ParseInt("5") == Some(5);
    assert ',' !in "911" && ';' !in "911" && Printable("911", "5");
    assert "911" + "," + "5" == "911,5" == Join(["911,5"], ';');
    NetworkListReadsBack(["911,5"], [("911", "5")]);
    var items := NetworkItems("911,5");
    assert items == [Pair("911", 5)] && items[..0] == [];
  }
}
