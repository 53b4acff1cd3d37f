/** What updateEmergencyNumbersProperty does to the set of accepted numbers,
    and where repeated updates end up. The slots may hold any text at all. */
module EccUpdates {
  import opened JavaText
  import opened EccText

  /** The numbers a slot names once empty pieces are ignored. */
  function NamedNumbers(slot: string): seq<string> {
    NonEmpty(SlotNumbers(slot))
  }

  /** The numbers accepted before, leaving out what only an empty piece matches. */
  ghost predicate AcceptsNamed(categories: map<string, int>, sim1: string, sim2: string,
                               entries: seq<EccEntry>, number: string)
  {
    || NetworkAccepts(categories, number)
    || MatchesAny(NamedNumbers(sim1), number)
    || MatchesAny(NamedNumbers(sim2), number)
    || CustomAccepts(entries, sim1 != "" || sim2 != "", number)
  }

  /** A SIM was seen before the update, and the no-SIM numbers come in: a slot
      was empty, or both slots end up empty because there was nothing to print. */
  ghost predicate GainsNoSim(sim1: string, sim2: string, entries: seq<EccEntry>) {
    && (sim1 != "" || sim2 != "")
    && (sim1 == "" || sim2 == ""
        || (FixedNumbers(entries) == [] && NamedNumbers(sim1) == [] && NamedNumbers(sim2) == []))
  }

  lemma {:induction false} NamedMembers(slot: string)
    ensures forall x :: x in NamedNumbers(slot) <==> x in SlotNumbers(slot) && x != ""
  {
    NonEmptyMembers(SlotNumbers(slot));
  }

  lemma {:induction false} AnyOfMembers(xs: seq<string>, number: string)
    ensures MatchesAny(xs, number) <==> exists x :: x in xs && Matches(x, number)
  {
  }

  /** Custom numbers split into the fixed ones and those for phones without a SIM. */
  lemma {:induction false} CustomIsFixedOrNoSim(entries: seq<EccEntry>, simInserted: bool, number: string)
    requires PlainEntries(entries)
    ensures CustomAccepts(entries, simInserted, number)
      <==> MatchesAny(FixedNumbers(entries), number) || (!simInserted && MatchesAny(NoSimNumbers(entries), number))
  {
    AnyOfMembers(FixedNumbers(entries), number);
    AnyOfMembers(NoSimNumbers(entries), number);
    if i :| 0 <= i < |entries| && (simInserted ==> entries[i].condition != ECC_NO_SIM)
            && Matches(entries[i].ecc, number) {
      FixedMembers(entries, entries[i].ecc);
      NoSimMembers(entries, entries[i].ecc);
    }
    if x :| x in FixedNumbers(entries) && Matches(x, number) { FixedMembers(entries, x); }
    if x :| x in NoSimNumbers(entries) && Matches(x, number) { NoSimMembers(entries, x); }
  }

  ghost predicate MatchesEntry(entries: seq<EccEntry>, number: string, noSim: bool) {
    exists i :: 0 <= i < |entries| && (entries[i].condition == "0") == noSim && Matches(entries[i].ecc, number)
  }

  /** Putting a SIM in loses exactly the numbers that only a custom entry for
      phones without a SIM matches. */
  lemma {:induction false} SimHidesNoSimNumbers(categories: map<string, int>, sim1: string, sim2: string,
                                                entries: seq<EccEntry>, number: string)
    requires sim1 != "" || sim2 != ""
    ensures Accepts(categories, "", "", entries, number) && !Accepts(categories, sim1, sim2, entries, number)
      <==> && MatchesEntry(entries, number, true) && !MatchesEntry(entries, number, false)
           && (forall key :: key in categories ==> !Matches(key, number))
           && !MatchesAny(SlotNumbers(sim1), number) && !MatchesAny(SlotNumbers(sim2), number)
  {
    if CustomAccepts(entries, false, number) {
      var i :| 0 <= i < |entries| && Matches(entries[i].ecc, number);
      assert MatchesEntry(entries, number, entries[i].condition == "0");
    }
    if noSim: bool :| MatchesEntry(entries, number, noSim) {
      var i :| 0 <= i < |entries| && Matches(entries[i].ecc, number);
      assert CustomAccepts(entries, false, number);
    }
    if CustomAccepts(entries, true, number) {
      var i :| 0 <= i < |entries| && entries[i].condition != ECC_NO_SIM && Matches(entries[i].ecc, number);
      assert MatchesEntry(entries, number, false);
    }
  }

  /** A printed slot accepts what it named, the fixed numbers, and the no-SIM
      numbers if it was empty. */
  lemma {:induction false} UpdatedSlotAccepts(slot: string, entries: seq<EccEntry>, number: string)
    requires PlainEntries(entries)
    ensures MatchesAny(SlotNumbers(UpdatedSlot(slot, entries)), number)
      <==> || MatchesAny(NamedNumbers(slot), number)
           || MatchesAny(FixedNumbers(entries), number)
           || (slot == "" && MatchesAny(NoSimNumbers(entries), number))
  {
    var fixed, noSim := FixedNumbers(entries), NoSimNumbers(entries);
    var merged := MergedNumbers(slot, fixed, noSim);
    UpdatedSlotReads(slot, entries);
    AnyOfMembers(merged, number);
    AnyOfMembers(NamedNumbers(slot), number);
    AnyOfMembers(fixed, number);
    AnyOfMembers(noSim, number);
    NamedMembers(slot);
    forall x ensures x in merged <==> x in NamedNumbers(slot) || x in fixed || (slot == "" && x in noSim) {
      MergedMembers(slot, fixed, noSim, x);
    }
  }

  /** Which slots print as the empty string. */
  lemma {:induction false} UpdatedSlotEmpty(slot: string, entries: seq<EccEntry>)
    requires PlainEntries(entries)
    ensures UpdatedSlot(slot, entries) == ""
      <==> NamedNumbers(slot) == [] && FixedNumbers(entries) == [] && (slot == "" ==> NoSimNumbers(entries) == [])
  {
    var fixed, noSim := FixedNumbers(entries), NoSimNumbers(entries);
    var merged := MergedNumbers(slot, fixed, noSim);
    UpdatedSlotReads(slot, entries);
    NamedMembers(slot);
    if merged != [] { MergedMembers(slot, fixed, noSim, merged[0]); }
    if fixed != [] { MergedMembers(slot, fixed, noSim, fixed[0]); }
    if noSim != [] { MergedMembers(slot, fixed, noSim, noSim[0]); }
    if NamedNumbers(slot) != [] { MergedMembers(slot, fixed, noSim, NamedNumbers(slot)[0]); }
  }

  /** The exact effect of one update on every number, for arbitrary slot texts. */
  lemma {:induction false} UpdateEffect(categories: map<string, int>, sim1: string, sim2: string,
                                        entries: seq<EccEntry>, number: string)
    requires PlainEntries(entries)
    ensures Accepts(categories, UpdatedSlot(sim1, entries), UpdatedSlot(sim2, entries), entries, number)
      <==> || AcceptsNamed(categories, sim1, sim2, entries, number)
           || (GainsNoSim(sim1, sim2, entries) && MatchesAny(NoSimNumbers(entries), number))
  {
    var after1, after2 := UpdatedSlot(sim1, entries), UpdatedSlot(sim2, entries);
    UpdatedSlotAccepts(sim1, entries, number);
    UpdatedSlotAccepts(sim2, entries, number);
    UpdatedSlotEmpty(sim1, entries);
    UpdatedSlotEmpty(sim2, entries);
    CustomIsFixedOrNoSim(entries, sim1 != "" || sim2 != "", number);
    CustomIsFixedOrNoSim(entries, after1 != "" || after2 != "", number);
  }

  lemma {:induction false} AcceptsByName(categories: map<string, int>, sim1: string, sim2: string,
                                         entries: seq<EccEntry>, number: string)
    ensures AcceptsNamed(categories, sim1, sim2, entries, number) ==> Accepts(categories, sim1, sim2, entries, number)
    ensures Accepts(categories, sim1, sim2, entries, number) ==>
      || AcceptsNamed(categories, sim1, sim2, entries, number)
      || (("" in SlotNumbers(sim1) || "" in SlotNumbers(sim2)) && Matches("", number))
  {
    AnyOfMembers(SlotNumbers(sim1), number);
    AnyOfMembers(SlotNumbers(sim2), number);
    AnyOfMembers(NamedNumbers(sim1), number);
    AnyOfMembers(NamedNumbers(sim2), number);
    NamedMembers(sim1);
    NamedMembers(sim2);
  }

  lemma {:induction false} NoneIsEmpty(xs: seq<string>)
    requires Plain(xs)
    ensures !MatchesAny(xs, "")
  {
  }

  lemma {:induction false} EmptyNumberAfter(categories: map<string, int>, sim1: string, sim2: string,
                                            entries: seq<EccEntry>)
    requires PlainEntries(entries)
    ensures Accepts(categories, UpdatedSlot(sim1, entries), UpdatedSlot(sim2, entries), entries, "")
      <==> "" in categories
  {
    var fixed, noSim := FixedNumbers(entries), NoSimNumbers(entries);
    var after1, after2 := UpdatedSlot(sim1, entries), UpdatedSlot(sim2, entries);
    PlainLists(entries);
    UpdatedSlotReads(sim1, entries);
    UpdatedSlotReads(sim2, entries);
    MergedPlain(sim1, fixed, noSim);
    MergedPlain(sim2, fixed, noSim);
    NoneIsEmpty(MergedNumbers(sim1, fixed, noSim));
    NoneIsEmpty(MergedNumbers(sim2, fixed, noSim));
    NoneIsEmpty(fixed);
    NoneIsEmpty(noSim);
    CustomIsFixedOrNoSim(entries, after1 != "" || after2 != "", "");
    if "" in categories { assert Matches("", ""); }
  }

  /** An update removes no number exactly when no slot has an empty piece among
      its numbers, or the network itself lists the empty number. */
  lemma {:induction false} NothingLost(categories: map<string, int>, sim1: string, sim2: string, entries: seq<EccEntry>)
    requires PlainEntries(entries)
    ensures (forall number :: Accepts(categories, sim1, sim2, entries, number) ==>
               Accepts(categories, UpdatedSlot(sim1, entries), UpdatedSlot(sim2, entries), entries, number))
      <==> ("" !in SlotNumbers(sim1) && "" !in SlotNumbers(sim2)) || "" in categories
  {
    var after1, after2 := UpdatedSlot(sim1, entries), UpdatedSlot(sim2, entries);
    EmptyNumberAfter(categories, sim1, sim2, entries);
    if ("" in SlotNumbers(sim1) || "" in SlotNumbers(sim2)) && "" !in categories {
      AnyOfMembers(SlotNumbers(sim1), "");
      AnyOfMembers(SlotNumbers(sim2), "");
      assert Matches("", "");
      assert Accepts(categories, sim1, sim2, entries, "");
    } else {
      forall number | Accepts(categories, sim1, sim2, entries, number)
        ensures Accepts(categories, after1, after2, entries, number)
      {
        UpdateEffect(categories, sim1, sim2, entries, number);
        AcceptsByName(categories, sim1, sim2, entries, number);
      }
    }
  }

  /** Empty, or non-empty pieces joined by commas. */
  predicate WellFormed(slot: string) {
    slot == "" || "" !in Pieces(slot, ',')
  }

  lemma {:induction false} WellFormedIsJoin(slot: string)
    ensures WellFormed(slot) <==> exists xs :: Plain(xs) && slot == Join(xs, ',')
  {
    JoinOfPieces(slot, ',');
    if slot == "" {
      assert slot == Join([], ',') && Plain([]);
    } else if "" !in Pieces(slot, ',') {
      assert forall i :: 0 <= i < |Pieces(slot, ',')| ==> Pieces(slot, ',')[i] in Pieces(slot, ',');
      assert Plain(Pieces(slot, ','));
    } else if xs :| Plain(xs) && slot == Join(xs, ',') {
      if xs != [] { PiecesOfJoin(xs, ','); }
      assert false;
    }
  }

  /** An update leaves a well-formed slot, whatever the slot held before. */
  lemma {:induction false} UpdatedIsWellFormed(slot: string, entries: seq<EccEntry>)
    requires PlainEntries(entries)
    ensures WellFormed(UpdatedSlot(slot, entries))
  {
    PlainLists(entries);
    MergedPlain(slot, FixedNumbers(entries), NoSimNumbers(entries));
    WellFormedIsJoin(UpdatedSlot(slot, entries));
  }

  lemma {:induction false} WellFormedNumbers(slot: string)
    requires WellFormed(slot)
    ensures "" !in SlotNumbers(slot) && (slot != "" ==> NamedNumbers(slot) != [])
  {
  }

  /** On well-formed slots an update keeps the accepted numbers as they are,
      except that it adds the no-SIM numbers when exactly one slot was empty. */
  lemma {:induction false} WellFormedUpdate(categories: map<string, int>, sim1: string, sim2: string,
                                            entries: seq<EccEntry>, number: string)
    requires PlainEntries(entries) && WellFormed(sim1) && WellFormed(sim2)
    ensures Accepts(categories, UpdatedSlot(sim1, entries), UpdatedSlot(sim2, entries), entries, number)
      <==> || Accepts(categories, sim1, sim2, entries, number)
           || ((sim1 == "") != (sim2 == "") && MatchesAny(NoSimNumbers(entries), number))
  {
    UpdateEffect(categories, sim1, sim2, entries, number);
    AcceptsByName(categories, sim1, sim2, entries, number);
    WellFormedNumbers(sim1);
    WellFormedNumbers(sim2);
  }

  // ---- Repeated updates ----

  function Updates(slot: string, entries: seq<EccEntry>, k: nat): string {
    if k == 0 then slot else UpdatedSlot(Updates(slot, entries, k - 1), entries)
  }

  /** Merging a list that already ends in the fixed numbers changes nothing. */
  lemma {:induction false} RemoveThenAppend(xs: seq<string>, fixed: seq<string>)
    ensures RemoveAll(RemoveAll(xs, fixed) + fixed, fixed) + fixed == RemoveAll(xs, fixed) + fixed
  {
    RemoveAllMembers(xs, fixed);
    RemoveAllAppend(RemoveAll(xs, fixed), fixed, fixed);
    RemoveAllNothing(RemoveAll(xs, fixed), fixed);
    RemoveAllEverything(fixed, fixed);
  }

  /** A slot that prints as non-empty, after having been non-empty, is done. */
  lemma {:induction false} NonEmptySlotSettles(slot: string, entries: seq<EccEntry>)
    requires PlainEntries(entries)
    requires slot != "" && UpdatedSlot(slot, entries) != ""
    ensures UpdatedSlot(UpdatedSlot(slot, entries), entries) == UpdatedSlot(slot, entries)
  {
    UpdatedSlotReads(slot, entries);
    RemoveThenAppend(NonEmpty(Split(slot, ',')), FixedNumbers(entries));
  }

  /** A non-empty slot is a textual fixed point after one update, unless it was
      made of commas only, no entry is fixed, and there are no-SIM entries. */
  lemma {:induction false} OneUpdateSuffices(slot: string, entries: seq<EccEntry>)
    requires PlainEntries(entries) && slot != ""
    ensures UpdatedSlot(UpdatedSlot(slot, entries), entries) == UpdatedSlot(slot, entries)
      <==> NamedNumbers(slot) != [] || FixedNumbers(entries) != [] || NoSimNumbers(entries) == []
  {
    UpdatedSlotEmpty(slot, entries);
    if UpdatedSlot(slot, entries) != "" {
      NonEmptySlotSettles(slot, entries);
    } else {
      UpdatedSlotEmpty("", entries);
    }
  }

  /** An empty slot is filled with the fixed numbers that are not no-SIM numbers
      followed by the no-SIM ones; the second update swaps the two groups. */
  lemma {:induction false} EmptySlotNumbers(entries: seq<EccEntry>)
    requires PlainEntries(entries)
    ensures var fixed, noSim := FixedNumbers(entries), NoSimNumbers(entries);
      && SlotNumbers(Updates("", entries, 1)) == RemoveAll(fixed, noSim) + noSim
      && SlotNumbers(Updates("", entries, 2)) == RemoveAll(noSim, fixed) + fixed
  {
    var fixed, noSim := FixedNumbers(entries), NoSimNumbers(entries);
    var first := UpdatedSlot("", entries);
    assert Updates("", entries, 1) == UpdatedSlot(Updates("", entries, 0), entries) == first;
    assert Updates("", entries, 2) == UpdatedSlot(first, entries);
    assert NonEmpty(Split("", ',')) == [];
    UpdatedSlotReads("", entries);
    assert [] + fixed == fixed;
    var xs := RemoveAll(fixed, noSim) + noSim;
    assert SlotNumbers(first) == xs;
    UpdatedSlotReads(first, entries);
    RemoveAllAppend(RemoveAll(fixed, noSim), noSim, fixed);
    RemoveAllMembers(fixed, noSim);
    RemoveAllEverything(RemoveAll(fixed, noSim), fixed);
    assert RemoveAll(xs, fixed) == RemoveAll(noSim, fixed);
    if xs == [] {
      assert first == "" && fixed == [] by { UpdatedSlotEmpty("", entries); }
    }
  }

  /** So one update settles an empty slot exactly when the two orders coincide. */
  lemma {:induction false} EmptySlotNeedsTwo(entries: seq<EccEntry>)
    requires PlainEntries(entries)
    ensures var fixed, noSim := FixedNumbers(entries), NoSimNumbers(entries);
      Updates("", entries, 2) == Updates("", entries, 1)
      <==> RemoveAll(fixed, noSim) + noSim == RemoveAll(noSim, fixed) + fixed
  {
    EmptySlotNumbers(entries);
    PrintedFromItsNumbers("", entries);
    PrintedFromItsNumbers(Updates("", entries, 1), entries);
    assert Updates("", entries, 1) == UpdatedSlot(Updates("", entries, 0), entries);
    assert Updates("", entries, 2) == UpdatedSlot(Updates("", entries, 1), entries);
  }

  /** A printed slot is the join of the numbers it names. */
  lemma {:induction false} PrintedFromItsNumbers(slot: string, entries: seq<EccEntry>)
    requires PlainEntries(entries)
    ensures UpdatedSlot(slot, entries) == Join(SlotNumbers(UpdatedSlot(slot, entries)), ',')
  {
    UpdatedSlotReads(slot, entries);
  }

  /** They do not coincide when some number is only fixed and some only no-SIM;
      for lists without a common number they coincide exactly when one is empty. */
  lemma {:induction false} OrdersDiffer(fixed: seq<string>, noSim: seq<string>)
    ensures RemoveAll(fixed, noSim) + noSim == RemoveAll(noSim, fixed) + fixed ==>
      RemoveAll(fixed, noSim) == [] || RemoveAll(noSim, fixed) == []
    ensures (forall x :: x in fixed ==> x !in noSim) ==>
      (RemoveAll(fixed, noSim) + noSim == RemoveAll(noSim, fixed) + fixed <==> fixed == [] || noSim == [])
  {
    var a, b := RemoveAll(fixed, noSim), RemoveAll(noSim, fixed);
    RemoveAllMembers(fixed, noSim);
    RemoveAllMembers(noSim, fixed);
    if a != [] && b != [] {
      assert (a + noSim)[0] == a[0] && (b + fixed)[0] == b[0];
      assert a[0] in a && b[0] in b;
    }
    if forall x :: x in fixed ==> x !in noSim {
      RemoveAllNothing(fixed, noSim);
      RemoveAllNothing(noSim, fixed);
    }
  }

  /** The concrete case: one number always on, one reserved for no SIM. */
  lemma {:induction false} OneUpdateIsNotEnough()
    ensures var entries := [EccEntry("112", "0", ECC_ALWAYS), EccEntry("000", "0", ECC_NO_SIM)];
      Updates("", entries, 2) != Updates("", entries, 1)
  {
    var entries := [EccEntry("112", "0", ECC_ALWAYS), EccEntry("000", "0", ECC_NO_SIM)];
    var front := entries[..1];
    assert front == [entries[0]] && front[..0] == [];
    assert FixedNumbers(front) == FixedNumbers(front[..0]) + ["112"] == ["112"];
    assert NoSimNumbers(front) == NoSimNumbers(front[..0]) == [];
    assert FixedNumbers(entries) == ["112"] && NoSimNumbers(entries) == ["000"];
    assert "112"[0] != "000"[0];
    OrdersDiffer(["112"], ["000"]);
    EmptySlotNeedsTwo(entries);
  }

  /** Whatever text a slot starts with, two updates reach a textual fixed point. */
  lemma {:induction false} TwoUpdatesSuffice(slot: string, entries: seq<EccEntry>)
    requires PlainEntries(entries)
    ensures Updates(slot, entries, 3) == Updates(slot, entries, 2)
  {
    var one := UpdatedSlot(slot, entries);
    var two := UpdatedSlot(one, entries);
    assert Updates(slot, entries, 1) == UpdatedSlot(Updates(slot, entries, 0), entries) == one;
    assert Updates(slot, entries, 2) == two;
    assert Updates(slot, entries, 3) == UpdatedSlot(two, entries);
    UpdatedSlotEmpty(slot, entries);
    UpdatedSlotEmpty(one, entries);
    if one != "" {
      UpdatedSlotReads(slot, entries);
      assert NamedNumbers(one) != [];
      NonEmptySlotSettles(one, entries);
    } else if two != "" {
      // Only no-SIM numbers: the first fill is already in its final order.
      var noSim := NoSimNumbers(entries);
      assert FixedNumbers(entries) == [];
      OrdersDiffer([], noSim);
      EmptySlotNeedsTwo(entries);
      assert Updates("", entries, 1) == UpdatedSlot(Updates("", entries, 0), entries) == two;
      assert Updates("", entries, 2) == UpdatedSlot(two, entries);
    }
  }

  lemma {:induction false} UpdatesSettle(slot: string, entries: seq<EccEntry>, k: nat)
    requires PlainEntries(entries) && k >= 2
    ensures Updates(slot, entries, k) == Updates(slot, entries, 2)
  {
    if k > 2 {
      UpdatesSettle(slot, entries, k - 1);
      TwoUpdatesSuffice(slot, entries);
      SameNext(slot, entries, k - 1, 2);
    }
  }

  lemma {:induction false} SameNext(slot: string, entries: seq<EccEntry>, j: nat, k: nat)
    requires Updates(slot, entries, j) == Updates(slot, entries, k)
    ensures Updates(slot, entries, j + 1) == Updates(slot, entries, k + 1)
  {
  }

  /** The second update keeps a slot's numbers, except that a slot that printed
      as empty takes in the no-SIM numbers. */
  lemma {:induction false} SecondUpdateNumbers(slot: string, entries: seq<EccEntry>, number: string)
    requires PlainEntries(entries)
    ensures MatchesAny(SlotNumbers(Updates(slot, entries, 2)), number)
      <==> || MatchesAny(SlotNumbers(Updates(slot, entries, 1)), number)
           || (Updates(slot, entries, 1) == "" && MatchesAny(NoSimNumbers(entries), number))
    ensures Updates(slot, entries, 2) == "" <==> Updates(slot, entries, 1) == "" && NoSimNumbers(entries) == []
  {
    var one := UpdatedSlot(slot, entries);
    assert Updates(slot, entries, 1) == UpdatedSlot(Updates(slot, entries, 0), entries) == one;
    assert Updates(slot, entries, 2) == UpdatedSlot(one, entries);
    UpdatedSlotReads(slot, entries);
    UpdatedSlotAccepts(slot, entries, number);
    UpdatedSlotAccepts(one, entries, number);
    UpdatedSlotEmpty(slot, entries);
    UpdatedSlotEmpty(one, entries);
    if one != "" {
      assert NamedNumbers(one) == SlotNumbers(one);
    }
  }

  /** The update prints the slot as empty. */
  ghost predicate PrintsEmpty(slot: string, entries: seq<EccEntry>) {
    NamedNumbers(slot) == [] && FixedNumbers(entries) == [] && (slot == "" ==> NoSimNumbers(entries) == [])
  }

  /** Exactly one slot is printed as empty, and is filled the next time. */
  ghost predicate GainsLate(sim1: string, sim2: string, entries: seq<EccEntry>) {
    PrintsEmpty(sim1, entries) != PrintsEmpty(sim2, entries)
  }

  ghost predicate AcceptsAfter(categories: map<string, int>, sim1: string, sim2: string,
                               entries: seq<EccEntry>, k: nat, number: string)
  {
    Accepts(categories, Updates(sim1, entries, k), Updates(sim2, entries, k), entries, number)
  }

  lemma {:induction false} SecondUpdateAcceptance(categories: map<string, int>, sim1: string, sim2: string,
                                                  entries: seq<EccEntry>, number: string)
    requires PlainEntries(entries)
    ensures AcceptsAfter(categories, sim1, sim2, entries, 2, number) ==
      (AcceptsAfter(categories, sim1, sim2, entries, 1, number)
       || (GainsLate(sim1, sim2, entries) && MatchesAny(NoSimNumbers(entries), number)))
  {
    var one1, one2 := UpdatedSlot(sim1, entries), UpdatedSlot(sim2, entries);
    assert Updates(sim1, entries, 1) == UpdatedSlot(Updates(sim1, entries, 0), entries) == one1;
    assert Updates(sim2, entries, 1) == UpdatedSlot(Updates(sim2, entries, 0), entries) == one2;
    UpdatedIsWellFormed(sim1, entries);
    UpdatedIsWellFormed(sim2, entries);
    UpdatedSlotEmpty(sim1, entries);
    UpdatedSlotEmpty(sim2, entries);
    WellFormedUpdate(categories, one1, one2, entries, number);
  }

  lemma {:induction false} LaterIsSecond(categories: map<string, int>, sim1: string, sim2: string,
                                         entries: seq<EccEntry>, k: nat, number: string)
    requires PlainEntries(entries) && k >= 2
    ensures AcceptsAfter(categories, sim1, sim2, entries, k, number)
         == AcceptsAfter(categories, sim1, sim2, entries, 2, number)
  {
    UpdatesSettle(sim1, entries, k);
    UpdatesSettle(sim2, entries, k);
  }

  /** Over any number of updates of any texts, the accepted numbers after the
      first update change at most once more: the second adds the no-SIM numbers
      when exactly one slot printed as empty. */
  lemma {:induction false} AcceptanceSettles(categories: map<string, int>, sim1: string, sim2: string,
                                             entries: seq<EccEntry>, k: nat, number: string)
    requires PlainEntries(entries) && k >= 2
    ensures AcceptsAfter(categories, sim1, sim2, entries, k, number) ==
      (AcceptsAfter(categories, sim1, sim2, entries, 1, number)
       || (GainsLate(sim1, sim2, entries) && MatchesAny(NoSimNumbers(entries), number)))
  {
    LaterIsSecond(categories, sim1, sim2, entries, k, number);
    SecondUpdateAcceptance(categories, sim1, sim2, entries, number);
  }

  lemma {:induction false} FirstUpdateAcceptance(categories: map<string, int>, sim1: string, sim2: string,
                                                 entries: seq<EccEntry>, number: string)
    requires PlainEntries(entries)
    ensures AcceptsAfter(categories, sim1, sim2, entries, 1, number) ==
      (AcceptsNamed(categories, sim1, sim2, entries, number)
       || (GainsNoSim(sim1, sim2, entries) && MatchesAny(NoSimNumbers(entries), number)))
  {
    assert Updates(sim1, entries, 1) == UpdatedSlot(Updates(sim1, entries, 0), entries);
    assert Updates(sim2, entries, 1) == UpdatedSlot(Updates(sim2, entries, 0), entries);
    UpdateEffect(categories, sim1, sim2, entries, number);
  }

  /** The first update has settled whether the number is accepted. */
  ghost predicate SettledAtOnce(categories: map<string, int>, sim1: string, sim2: string,
                                entries: seq<EccEntry>, number: string)
  {
    forall k: nat :: k >= 2 ==>
      AcceptsAfter(categories, sim1, sim2, entries, k, number)
      == AcceptsAfter(categories, sim1, sim2, entries, 1, number)
  }

  lemma {:induction false} NumberSettlesAtOnce(categories: map<string, int>, sim1: string, sim2: string,
                                               entries: seq<EccEntry>, number: string)
    requires PlainEntries(entries)
    ensures SettledAtOnce(categories, sim1, sim2, entries, number)
         == !(GainsLate(sim1, sim2, entries) && MatchesAny(NoSimNumbers(entries), number)
              && !AcceptsAfter(categories, sim1, sim2, entries, 1, number))
  {
    forall k: nat | k >= 2
      ensures AcceptsAfter(categories, sim1, sim2, entries, k, number) ==
        (AcceptsAfter(categories, sim1, sim2, entries, 1, number)
         || (GainsLate(sim1, sim2, entries) && MatchesAny(NoSimNumbers(entries), number)))
    {
      AcceptanceSettles(categories, sim1, sim2, entries, k, number);
    }
    AcceptanceSettles(categories, sim1, sim2, entries, 2, number);
  }

  /** The no-SIM number is new in the long run but not at the first update. */
  ghost predicate ComesLate(categories: map<string, int>, sim1: string, sim2: string,
                            entries: seq<EccEntry>, number: string)
  {
    && GainsLate(sim1, sim2, entries) && !GainsNoSim(sim1, sim2, entries)
    && MatchesAny(NoSimNumbers(entries), number)
    && !AcceptsNamed(categories, sim1, sim2, entries, number)
  }

  /** The first update settles a number for good unless it is a no-SIM number not
      accepted by name, exactly one slot names nothing and prints as empty, and
      the no-SIM numbers did not come in at once: read off the texts before. */
  lemma {:induction false} AcceptanceSettlesAtOnce(categories: map<string, int>, sim1: string, sim2: string,
                                                   entries: seq<EccEntry>, number: string)
    requires PlainEntries(entries)
    ensures SettledAtOnce(categories, sim1, sim2, entries, number)
         == !ComesLate(categories, sim1, sim2, entries, number)
  {
    NumberSettlesAtOnce(categories, sim1, sim2, entries, number);
    FirstUpdateAcceptance(categories, sim1, sim2, entries, number);
  }

  /** The concrete case: a slot of one comma is printed as empty and then filled,
      so 000 is refused after the first update and accepted after the second. */
  lemma {:induction false} AcceptanceCanChangeLate()
    ensures var entries := [EccEntry("000", "0", ECC_NO_SIM)];
      !AcceptsAfter(map[], ",", "911", entries, 1, "000") && AcceptsAfter(map[], ",", "911", entries, 2, "000")
  {
    var entries := [EccEntry("000", "0", ECC_NO_SIM)];
    assert entries[..0] == [];
    assert FixedNumbers(entries) == FixedNumbers(entries[..0]) == [];
    assert NoSimNumbers(entries) == NoSimNumbers(entries[..0]) + ["000"] == ["000"];
    SingleSlot();
    assert Matches(NoSimNumbers(entries)[0], "000");
    assert Updates(",", entries, 1) == UpdatedSlot(Updates(",", entries, 0), entries);
    assert Updates("911", entries, 1) == UpdatedSlot(Updates("911", entries, 0), entries);
    UpdateEffect(map[], ",", "911", entries, "000");
    AcceptanceSettles(map[], ",", "911", entries, 2, "000");
  }

  lemma {:induction false} SingleSlot()
    ensures NamedNumbers(",") == [] && NamedNumbers("911") == ["911"] && !Matches("911", "000")
  {
    assert ","[1..] == "" && Pieces("", ',') == [""];
    assert Pieces(",", ',') == ["", ""];
    assert ["", ""][..1] == [""] && [""][..0] == [];
    assert Split(",", ',') == [];
    assert ',' !in "911" && Split("911", ',') == ["911"];
    NonEmptyOfAllNonEmpty(["911"]);
    assert "911"[0] != "000"[0] && ("911" + "+")[0] != "000"[0];
  }
}
