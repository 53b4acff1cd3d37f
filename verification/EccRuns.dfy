/** The emergency-number store on the list the device ships. */
module EccRuns {
  import opened JavaText
  import opened SystemProperties
  import opened EccText
  import opened EccCta
  import opened EccUpdates
  import opened MtkEccList

  const SHIPPED: seq<EccEntry> := [
    EccEntry("112", "0", "1"), EccEntry("911", "0", "1"), EccEntry("000", "0", "0"), EccEntry("08", "0", "0"),
    EccEntry("110", "0", "2"), EccEntry("118", "0", "0"), EccEntry("119", "0", "2"), EccEntry("999", "0", "0")]

  ghost predicate NumbersAre(entries: seq<EccEntry>, fixed: seq<string>, noSim: seq<string>) {
    FixedNumbers(entries) == fixed && NoSimNumbers(entries) == noSim
  }

  lemma {:induction false} EntryForAll(entries: seq<EccEntry>, k: nat, fixed: seq<string>, noSim: seq<string>)
    requires k < |entries| && NumbersAre(entries[..k], fixed, noSim) && entries[k].condition != "0"
    ensures NumbersAre(entries[..k + 1], fixed + [entries[k].ecc], noSim)
  {
    assert entries[..k + 1][..k] == entries[..k];
  }

  lemma {:induction false} EntryForNoSim(entries: seq<EccEntry>, k: nat, fixed: seq<string>, noSim: seq<string>)
    requires k < |entries| && NumbersAre(entries[..k], fixed, noSim)
    requires entries[k].condition == "0" && entries[k].ecc != ""
    ensures NumbersAre(entries[..k + 1], fixed, noSim + [entries[k].ecc])
  {
    assert entries[..k + 1][..k] == entries[..k];
  }

  /** Eight entries that are for every phone and for no SIM as the shipped ones. */
  lemma {:induction false} NumbersOfEight(es: seq<EccEntry>)
    requires |es| == 8
    requires forall i :: 0 <= i < 8 ==> es[i].ecc != "" && (es[i].condition == "0" <==> i in {2, 3, 5, 7})
    ensures FixedNumbers(es) == [es[0].ecc, es[1].ecc, es[4].ecc, es[6].ecc]
    ensures NoSimNumbers(es) == [es[2].ecc, es[3].ecc, es[5].ecc, es[7].ecc]
  {
    assert es[..0] == [] && es[..8] == es;
    var f, n: seq<string> := [], [];
    EntryForAll(es, 0, f, n);
    EntryForAll(es, 1, f + [es[0].ecc], n);
    f := f + [es[0].ecc] + [es[1].ecc];
    EntryForNoSim(es, 2, f, n);
    EntryForNoSim(es, 3, f, n + [es[2].ecc]);
    n := n + [es[2].ecc] + [es[3].ecc];
    EntryForAll(es, 4, f, n);
    EntryForNoSim(es, 5, f + [es[4].ecc], n);
    EntryForAll(es, 6, f + [es[4].ecc], n + [es[5].ecc]);
    EntryForNoSim(es, 7, f + [es[4].ecc] + [es[6].ecc], n + [es[5].ecc]);
  }

  /** The shipped numbers for every phone and for phones without a SIM. */
  lemma {:induction false} ShippedNumbers()
    ensures FixedNumbers(SHIPPED) == ["112", "911", "110", "119"]
    ensures NoSimNumbers(SHIPPED) == ["000", "08", "118", "999"]
  {
    assert "1"[0] != "0"[0] && "2"[0] != "0"[0];
    NumbersOfEight(SHIPPED);
  }

  /** A property of one number that the file does not list, and an empty one. */
  lemma {:induction false} SlotTexts(number: string, fixed: seq<string>, noSim: seq<string>)
    requires number != "" && ',' !in number && number !in fixed
    requires forall x :: x in fixed ==> x !in noSim
    ensures MergedNumbers(number, fixed, noSim) == [number] + fixed
    ensures MergedNumbers("", fixed, noSim) == fixed + noSim
  {
    NonEmptyOfAllNonEmpty([number]);
    RemoveAllNothing([number], fixed);
    assert NonEmpty(Split("", ',')) == [] && RemoveAll([], fixed) + fixed == fixed;
    RemoveAllNothing(fixed, noSim);
  }

  lemma {:induction false} ShippedTexts()
    ensures UpdatedSlot("123", SHIPPED) == Join(["123", "112", "911", "110", "119"], ',')
    ensures UpdatedSlot("", SHIPPED) == Join(["112", "911", "110", "119", "000", "08", "118", "999"], ',')
  {
    ShippedNumbers();
    var fixed, noSim := ["112", "911", "110", "119"], ["000", "08", "118", "999"];
    assert fixed[0][1] == fixed[2][1] == fixed[3][1] == '1' && fixed[1][0] == '9' && fixed[1][1] == '1';
    assert "123"[1] == '2';
    assert "112"[2] == '2' && "911"[2] == '1' && "110"[2] == '0' && "119"[2] == '9' && "119"[0] == '1';
    assert "000"[1] == '0' && |"08"| == 2 && "118"[2] == '8' && "999"[1] == '9';
    SlotTexts("123", fixed, noSim);
    assert ["123"] + fixed == ["123", "112", "911", "110", "119"];
    assert fixed + noSim == ["112", "911", "110", "119", "000", "08", "118", "999"];
  }

  /** A phone with the shipped file and a first SIM that names 123: its property
      becomes 123,112,911,110,119, and the empty one 112,911,110,119,000,08,118,999. */
  method UpdateShippedList() returns (list: EccList, ok: bool)
    ensures list.customizedEccList == SHIPPED && ok
    ensures list.Sim1() == Join(["123", "112", "911", "110", "119"], ',')
    ensures list.Sim2() == Join(["112", "911", "110", "119", "000", "08", "118", "999"], ',')
  {
    var props := new PropertyStore((v: string) => true);
    ok := props.Set(ECC_LIST_SIM1, "123");
    EccKeysDiffer();
    list := new EccList(props, (s: string) => s, false, SHIPPED, true);
    assert list.Sim1() == "123" && list.Sim2() == "";
    ShippedTexts();
    ok := list.UpdateEmergencyNumbersProperty();
  }

  /** For the CTA, the two missing numbers go behind the shipped entries, and the
      entries of the other two are overwritten with what they already hold. */
  method ParseShippedForCta() returns (list: EccList)
    ensures list.customizedEccList == SHIPPED + [EccEntry("120", "0", "2"), EccEntry("122", "0", "2")]
  {
    var props := new PropertyStore((v: string) => true);
    ShippedMerge();
    list := new EccList(props, (s: string) => s, true, SHIPPED, true);
  }

  lemma {:induction false} MergeStep(entries: seq<EccEntry>, numbers: seq<string>, k: nat)
    requires k < |numbers|
    ensures MergeAll(entries, numbers[..k + 1]) == MergeOne(MergeAll(entries, numbers[..k]), numbers[k])
  {
    assert numbers[..k + 1][..k] == numbers[..k];
  }

  lemma {:induction false} MergeNewNumber(entries: seq<EccEntry>, number: string)
    requires forall i :: 0 <= i < |entries| ==> entries[i].ecc != number
    ensures MergeOne(entries, number) == entries + [EccEntry(number, "0", "2")]
  {
  }

  lemma {:induction false} MergeKnownNumber(entries: seq<EccEntry>, number: string, i: nat)
    requires i < |entries| && entries[i] == EccEntry(number, "0", "2")
    requires forall j :: 0 <= j < i ==> entries[j].ecc != number
    ensures MergeOne(entries, number) == entries
  {
    assert FirstIndex(entries, number) == i;
  }

  const FOR_CTA: seq<EccEntry> := SHIPPED + [EccEntry("120", "0", "2"), EccEntry("122", "0", "2")]

  lemma {:induction false} ShippedGrows()
    ensures var one := SHIPPED + [EccEntry("120", "0", "2")];
      MergeOne(SHIPPED, "120") == one && MergeOne(one, "122") == FOR_CTA
  {
    var one := SHIPPED + [EccEntry("120", "0", "2")];
    ShippedDiffer();
    MergeNewNumber(SHIPPED, "120");
    MergeNewNumber(one, "122");
    assert one + [EccEntry("122", "0", "2")] == FOR_CTA;
  }

  lemma {:induction false} ShippedStays()
    ensures MergeOne(FOR_CTA, "110") == FOR_CTA && MergeOne(FOR_CTA, "119") == FOR_CTA
  {
    ShippedDiffer();
    assert forall i :: 0 <= i < 8 ==> FOR_CTA[i] == SHIPPED[i];
    MergeKnownNumber(FOR_CTA, "110", 4);
    MergeKnownNumber(FOR_CTA, "119", 6);
  }

  lemma {:induction false} MergeFour(entries: seq<EccEntry>, numbers: seq<string>, one: seq<EccEntry>,
                                     two: seq<EccEntry>)
    requires |numbers| == 4
    requires MergeOne(entries, numbers[0]) == one && MergeOne(one, numbers[1]) == two
    requires MergeOne(two, numbers[2]) == two && MergeOne(two, numbers[3]) == two
    ensures MergeAll(entries, numbers) == two
  {
    assert numbers[..4] == numbers && numbers[..0] == [];
    MergeStep(entries, numbers, 0);
    MergeStep(entries, numbers, 1);
    MergeStep(entries, numbers, 2);
    MergeStep(entries, numbers, 3);
  }

  lemma {:induction false} ShippedMerge()
    ensures MergeAll(SHIPPED, CTA_NUMBERS) == FOR_CTA
  {
    ShippedGrows();
    ShippedStays();
    MergeFour(SHIPPED, CTA_NUMBERS, SHIPPED + [EccEntry("120", "0", "2")], FOR_CTA);
  }

  lemma {:induction false} ShippedDiffer()
    ensures forall i :: 0 <= i < 8 ==> SHIPPED[i].ecc != "120" && SHIPPED[i].ecc != "122"
    ensures "120" != "122"
    ensures forall i :: 0 <= i < 8 && i != 4 ==> SHIPPED[i].ecc != "110"
    ensures forall i :: 0 <= i < 8 && i != 6 ==> SHIPPED[i].ecc != "119"
  {
    assert forall i :: 0 <= i < 8 && i != 3 ==> |SHIPPED[i].ecc| == 3;
    assert |SHIPPED[3].ecc| == 2 && |"120"| == |"122"| == |"110"| == |"119"| == 3;
    assert "120"[1] == "122"[1] == '2' && "120"[2] == '0' && "122"[2] == '2';
    assert "110"[1] == "119"[1] == '1' && "110"[2] == '0' && "119"[2] == '9' && "110"[0] == "119"[0] == '1';
    assert SHIPPED[0].ecc[1] == '1' && SHIPPED[0].ecc[2] == '2';
    assert SHIPPED[1].ecc[1] == '1' && SHIPPED[1].ecc[2] == '1';
    assert SHIPPED[2].ecc[1] == '0' && SHIPPED[7].ecc[1] == '9';
    assert SHIPPED[5].ecc[1] == '1' && SHIPPED[5].ecc[2] == '8';
  }

  lemma {:induction false} TwoItems(a: string, b: string, key: string, category: int)
    requires a != "" && b != "" && ';' !in a && ';' !in b
    requires ReadItem(a) == Skipped && ReadItem(b) == Pair(key, category)
    ensures Collect(NetworkItems(Join([a, b], ';'))) == NetworkParse(map[key := category], true)
  {
    SplitOfJoinExact([a, b], ';');
    var items := NetworkItems(Join([a, b], ';'));
    assert items == [Skipped, Pair(key, category)];
    var one := items[..1];
    assert one == [Skipped] && one[..0] == [];
    assert Collect(one) == Collect([]) == NetworkParse(map[], true);
  }

  lemma {:induction false} EmptyCategory()
    ensures ReadItem("112,") == Skipped
  {
    assert "112" + [','] == "112,";
    assert ',' !in "112";
    SplitDropsLastSeparator("112", ',');
  }

  /** A list of "112,;911,5" is read without the first item: its category is cut
      away, so the item is no pair. */
  lemma {:induction false} EmptyCategoryIsSkipped()
    ensures Collect(NetworkItems("112,;911,5")) == NetworkParse(map["911" := 5], true)
  {
    EmptyCategory();
    FiveIsRead();
    TwoItemTexts();
    TwoItems("112,", "911,5", "911", 5);
  }

  lemma {:induction false} TwoItemTexts()
    ensures ';' !in "112," && ';' !in "911,5" && Join(["112,", "911,5"], ';') == "112,;911,5"
  {
    assert Join(["112,", "911,5"], ';') == "112," + [';'] + "911,5" == "112,;911,5";
  }

  lemma {:induction false} FiveIsRead()
    ensures ReadItem("911,5") == Pair("911", 5)
  {
    assert "5"[..0] == "" && DigitsValue("5") == Some(5) && ParseInt("5") == Some(5);
    assert ',' !in "911" && ';' !in "911" && Printable("911", "5");
    assert "911" + "," + "5" == "911,5";
    ItemReadsBack("911", "5");
  }
}
