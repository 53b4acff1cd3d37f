/** Emergency-number lists as values: what MtkEccList computes, and the
    relation between the numbers accepted before and after a property update. */
module EccText {
  import opened JavaText

  datatype EccEntry = EccEntry(ecc: string, category: string, condition: string)

  const ECC_NO_SIM := "0"
  const ECC_ALWAYS := "1"
  const ECC_FOR_MMI := "2"

  /** A stored number matches itself and itself with a trailing plus. */
  predicate Matches(ecc: string, number: string) {
    ecc == number || ecc + "+" == number
  }

  ghost predicate MatchesAny(eccs: seq<string>, number: string) {
    exists i :: 0 <= i < |eccs| && Matches(eccs[i], number)
  }

  // ---- The network's number/category list ----

  /** One item of the list: a number with its category, an item that is not a
      pair and is skipped, or one on which parseInt throws. */
  datatype Item = Pair(key: string, category: int) | Skipped | Malformed

  function ReadItem(item: string): Item {
    var parts := Split(item, ',');
    if item == "" || |parts| != 2 then Skipped
    else if ParseInt(parts[1]).None? then Malformed
    else Pair(parts[0], ParseInt(parts[1]).value)
  }

  function NetworkItems(list: string): seq<Item> {
    if list == "" then [] else
      var texts := Split(list, ';');
      seq(|texts|, i requires 0 <= i < |texts| => ReadItem(texts[i]))
  }

  datatype NetworkParse = NetworkParse(categories: map<string, int>, ok: bool)

  /** The map after taking the items in order, up to the first that throws. */
  function Collect(items: seq<Item>): NetworkParse {
    if items == [] then NetworkParse(map[], true)
    else
      var before := Collect(items[..|items| - 1]);
      if !before.ok then before
      else match items[|items| - 1]
        case Malformed => before.(ok := false)
        case Skipped => before
        case Pair(key, category) => before.(categories := before.categories[key := category])
  }

  lemma {:induction false} CollectStops(items: seq<Item>, i: nat)
    requires i <= |items| && !Collect(items[..i]).ok
    ensures Collect(items) == Collect(items[..i])
    decreases |items|
  {
    if i < |items| {
      var front := items[..|items| - 1];
      assert front[..i] == items[..i];
      CollectStops(front, i);
    } else {
      assert items[..i] == items;
    }
  }

  /** Item i is the last pair for the key and gives it this category. */
  ghost predicate LastPairAt(items: seq<Item>, i: int, key: string, category: int) {
    && 0 <= i < |items|
    && items[i] == Pair(key, category)
    && forall j :: i < j < |items| && items[j].Pair? ==> items[j].key != key
  }

  /** Reading succeeds exactly when no item throws, and then each key has the
      category of the last pair that names it. */
  lemma {:induction false} LastValuePerKeyWins(items: seq<Item>, key: string, category: int)
    ensures Collect(items).ok <==> Malformed !in items
    ensures Collect(items).ok ==>
      ((key in Collect(items).categories && Collect(items).categories[key] == category)
       <==> exists i :: LastPairAt(items, i, key, category))
  {
    if items != [] {
      var n := |items| - 1;
      var front := items[..n];
      LastValuePerKeyWins(front, key, category);
      assert items == front + [items[n]];
      if i :| LastPairAt(front, i, key, category) && !(items[n].Pair? && items[n].key == key) {
        assert LastPairAt(items, i, key, category);
      }
      if items[n] == Pair(key, category) {
        assert LastPairAt(items, n, key, category);
      }
      if i :| LastPairAt(items, i, key, category) && i < n {
        assert LastPairAt(front, i, key, category);
      }
    }
  }

  /** A number and a category, each free of separators, as the network prints them. */
  ghost predicate Printable(number: string, category: string) {
    && ',' !in number && ';' !in number
    && category != "" && ',' !in category && ';' !in category && ParseInt(category).Some?
  }

  lemma {:induction false} ItemReadsBack(number: string, category: string)
    requires Printable(number, category)
    ensures ReadItem(number + "," + category) == Pair(number, ParseInt(category).value)
  {
    var item := number + [','] + category;
    PiecesAfter(number, category, ',');
    PiecesOfFree(category, ',');
    assert item[|number|] == ',';
    assert Split(item, ',') == [number, category];
  }

  /** The item is a number and a category, with any number of commas behind. */
  ghost predicate PairText(item: string, key: string, category: string) {
    && ',' !in key && ',' !in category && category != ""
    && exists tail :: OnlyCommas(tail) && item == key + [','] + category + tail
  }

  ghost predicate OnlyCommas(text: string) {
    forall i :: 0 <= i < |text| ==> text[i] == ','
  }

  lemma {:induction false} PairIsRead(key: string, category: string, tail: string)
    requires ',' !in key && ',' !in category && category != "" && OnlyCommas(tail)
    ensures Split(key + [','] + category + tail, ',') == [key, category]
  {
    var item := key + [','] + category;
    assert item[|key|] == ',';
    if tail == "" {
      PiecesAfter(key, category, ',');
      PiecesOfFree(category, ',');
      assert item + tail == item;
    } else {
      var front := tail[..|tail| - 1];
      PairIsRead(key, category, front);
      assert (item + front)[|key|] == ',';
      SplitDropsLastSeparator(item + front, ',');
      assert item + tail == item + front + [','];
    }
  }

  lemma {:induction false} OnlyPairsAreRead(item: string)
    requires |Split(item, ',')| == 2
    ensures PairText(item, Split(item, ',')[0], Split(item, ',')[1])
  {
    var n := |item| - 1;
    var key, category := Split(item, ',')[0], Split(item, ',')[1];
    if item[n] == ',' {
      assert item == item[..n] + [','];
      SplitDropsLastSeparator(item[..n], ',');
      OnlyPairsAreRead(item[..n]);
      var tail :| OnlyCommas(tail) && item[..n] == key + [','] + category + tail;
      assert OnlyCommas(tail + [',']);
      assert item == key + [','] + category + (tail + [',']);
    } else {
      SplitKeepsAll(item, ',');
      JoinOfPieces(item, ',');
      assert Pieces(item, ',') == [key, category] && [key, category][1..] == [category];
      assert OnlyCommas("");
      assert item == key + [','] + category + "";
    }
  }

  /** An item is taken, or throws, if and only if it is a pair, commas behind it
      or not; "112," is skipped, since its empty category is cut away. */
  lemma {:induction false} ReadItemExactly(item: string, key: string, category: string)
    ensures PairText(item, key, category) ==>
      ReadItem(item) == if ParseInt(category).Some? then Pair(key, ParseInt(category).value) else Malformed
    ensures ReadItem(item) == Skipped <==> forall k, c :: !PairText(item, k, c)
  {
    if PairText(item, key, category) {
      var tail :| OnlyCommas(tail) && item == key + [','] + category + tail;
      PairIsRead(key, category, tail);
    }
    if k, c :| PairText(item, k, c) {
      var tail :| OnlyCommas(tail) && item == k + [','] + c + tail;
      PairIsRead(k, c, tail);
    } else if item != "" && |Split(item, ',')| == 2 {
      OnlyPairsAreRead(item);
    }
  }

  /** A printed list is read back pair by pair, in order. */
  lemma {:induction false} NetworkListReadsBack(lines: seq<string>, pairs: seq<(string, string)>)
    requires lines != [] && |lines| == |pairs|
    requires forall i :: 0 <= i < |lines| ==>
      Printable(pairs[i].0, pairs[i].1) && lines[i] == pairs[i].0 + "," + pairs[i].1
    ensures |NetworkItems(Join(lines, ';'))| == |pairs|
    ensures forall i :: 0 <= i < |pairs| ==> (
      && Printable(pairs[i].0, pairs[i].1)
      && NetworkItems(Join(lines, ';'))[i] == Pair(pairs[i].0, ParseInt(pairs[i].1).value))
  {
    SplitOfJoinExact(lines, ';');
    forall i | 0 <= i < |pairs| ensures ReadItem(lines[i]) == Pair(pairs[i].0, ParseInt(pairs[i].1).value) {
      ItemReadsBack(pairs[i].0, pairs[i].1);
    }
  }

  // ---- Which numbers are emergency numbers ----

  function SlotNumbers(slot: string): seq<string> {
    if slot == "" then [] else Split(slot, ',')
  }

  ghost predicate NetworkAccepts(categories: map<string, int>, number: string) {
    exists key :: key in categories && Matches(key, number)
  }

  /** A custom entry counts unless it is reserved for phones without a SIM. */
  ghost predicate CustomAccepts(entries: seq<EccEntry>, simInserted: bool, number: string) {
    exists i :: 0 <= i < |entries| && (simInserted ==> entries[i].condition != ECC_NO_SIM)
                && Matches(entries[i].ecc, number)
  }

  ghost predicate Accepts(categories: map<string, int>, sim1: string, sim2: string,
                          entries: seq<EccEntry>, number: string)
  {
    || NetworkAccepts(categories, number)
    || MatchesAny(SlotNumbers(sim1), number)
    || MatchesAny(SlotNumbers(sim2), number)
    || CustomAccepts(entries, sim1 != "" || sim2 != "", number)
  }

  // ---- The update of one SIM property ----

  function FixedNumbers(entries: seq<EccEntry>): seq<string> {
    if entries == [] then []
    else
      var rest := FixedNumbers(entries[..|entries| - 1]);
      var e := entries[|entries| - 1];
      if e.condition != ECC_NO_SIM then rest + [e.ecc] else rest
  }

  function NoSimNumbers(entries: seq<EccEntry>): seq<string> {
    if entries == [] then []
    else
      var rest := NoSimNumbers(entries[..|entries| - 1]);
      var e := entries[|entries| - 1];
      if e.condition == ECC_NO_SIM && e.ecc != "" then rest + [e.ecc] else rest
  }

  /** ArrayList.removeAll. */
  function RemoveAll(xs: seq<string>, ys: seq<string>): seq<string> {
    if xs == [] then []
    else if xs[0] in ys then RemoveAll(xs[1..], ys)
    else [xs[0]] + RemoveAll(xs[1..], ys)
  }

  function MergedNumbers(slot: string, fixed: seq<string>, noSim: seq<string>): seq<string> {
    var known := RemoveAll(NonEmpty(Split(slot, ',')), fixed) + fixed;
    if slot == "" then RemoveAll(known, noSim) + noSim else known
  }

  function UpdatedSlot(slot: string, entries: seq<EccEntry>): string {
    Join(MergedNumbers(slot, FixedNumbers(entries), NoSimNumbers(entries)), ',')
  }

  /** What a custom list must look like for its numbers to survive printing. */
  ghost predicate PlainEntries(entries: seq<EccEntry>) {
    forall i :: 0 <= i < |entries| ==> entries[i].ecc != "" && ',' !in entries[i].ecc
  }

  // ---- List facts ----

  ghost predicate Plain(xs: seq<string>) {
    FreeOf(xs, ',') && AllNonEmpty(xs)
  }

  lemma {:induction false} PlainConcat(xs: seq<string>, ys: seq<string>)
    requires Plain(xs) && Plain(ys)
    ensures Plain(xs + ys)
  {
  }

  lemma {:induction false} RemoveAllMembers(xs: seq<string>, ys: seq<string>)
    ensures forall x :: x in RemoveAll(xs, ys) <==> x in xs && x !in ys
  {
    if xs != [] { RemoveAllMembers(xs[1..], ys); }
  }

  lemma {:induction false} RemoveAllPlain(xs: seq<string>, ys: seq<string>)
    requires Plain(xs)
    ensures Plain(RemoveAll(xs, ys))
  {
    RemoveAllMembers(xs, ys);
    forall i | 0 <= i < |RemoveAll(xs, ys)|
      ensures ',' !in RemoveAll(xs, ys)[i] && RemoveAll(xs, ys)[i] != ""
    {
      assert RemoveAll(xs, ys)[i] in xs;
    }
  }

  lemma {:induction false} RemoveAllAppend(xs: seq<string>, ys: seq<string>, zs: seq<string>)
    ensures RemoveAll(xs + ys, zs) == RemoveAll(xs, zs) + RemoveAll(ys, zs)
  {
    if xs == [] {
      assert xs + ys == ys;
    } else {
      assert (xs + ys)[1..] == xs[1..] + ys;
      RemoveAllAppend(xs[1..], ys, zs);
    }
  }

  lemma {:induction false} RemoveAllNothing(xs: seq<string>, ys: seq<string>)
    requires forall x :: x in xs ==> x !in ys
    ensures RemoveAll(xs, ys) == xs
  {
    if xs != [] { RemoveAllNothing(xs[1..], ys); }
  }

  lemma {:induction false} RemoveAllEverything(xs: seq<string>, ys: seq<string>)
    requires forall x :: x in xs ==> x in ys
    ensures RemoveAll(xs, ys) == []
  {
    if xs != [] { RemoveAllEverything(xs[1..], ys); }
  }

  lemma {:induction false} FixedMembers(entries: seq<EccEntry>, x: string)
    ensures x in FixedNumbers(entries)
      <==> exists i :: 0 <= i < |entries| && entries[i].condition != ECC_NO_SIM && entries[i].ecc == x
  {
    if entries != [] {
      var front := entries[..|entries| - 1];
      FixedMembers(front, x);
      if i :| 0 <= i < |front| && front[i].condition != ECC_NO_SIM && front[i].ecc == x {
        assert entries[i].ecc == x;
      }
    }
  }

  lemma {:induction false} NoSimMembers(entries: seq<EccEntry>, x: string)
    ensures x in NoSimNumbers(entries)
      <==> exists i :: 0 <= i < |entries| && entries[i].condition == ECC_NO_SIM && entries[i].ecc == x && x != ""
  {
    if entries != [] {
      var front := entries[..|entries| - 1];
      NoSimMembers(front, x);
      if i :| 0 <= i < |front| && front[i].condition == ECC_NO_SIM && front[i].ecc == x && x != "" {
        assert entries[i].ecc == x;
      }
    }
  }

  lemma {:induction false} PlainLists(entries: seq<EccEntry>)
    requires PlainEntries(entries)
    ensures Plain(FixedNumbers(entries)) && Plain(NoSimNumbers(entries))
  {
    forall x | x in FixedNumbers(entries) ensures ',' !in x && x != "" { FixedMembers(entries, x); }
    forall x | x in NoSimNumbers(entries) ensures ',' !in x && x != "" { NoSimMembers(entries, x); }
    assert forall i :: 0 <= i < |FixedNumbers(entries)| ==> FixedNumbers(entries)[i] in FixedNumbers(entries);
    assert forall i :: 0 <= i < |NoSimNumbers(entries)| ==> NoSimNumbers(entries)[i] in NoSimNumbers(entries);
  }

  lemma {:induction false} SlotPlain(slot: string)
    ensures Plain(NonEmpty(Split(slot, ',')))
  {
    SplitPiecesFree(slot, ',');
    NonEmptyMembers(Split(slot, ','));
  }

  lemma {:induction false} MergedPlain(slot: string, fixed: seq<string>, noSim: seq<string>)
    requires Plain(fixed) && Plain(noSim)
    ensures Plain(MergedNumbers(slot, fixed, noSim))
  {
    var pieces := NonEmpty(Split(slot, ','));
    SlotPlain(slot);
    RemoveAllPlain(pieces, fixed);
    var known := RemoveAll(pieces, fixed) + fixed;
    PlainConcat(RemoveAll(pieces, fixed), fixed);
    if slot == "" {
      RemoveAllPlain(known, noSim);
      PlainConcat(RemoveAll(known, noSim), noSim);
    }
  }

  /** A merge keeps every number of the slot and adds the fixed ones, and the
      no-SIM ones when the slot was empty; nothing else. */
  lemma {:induction false} MergedMembers(slot: string, fixed: seq<string>, noSim: seq<string>, x: string)
    ensures x in MergedNumbers(slot, fixed, noSim)
      <==> (x in SlotNumbers(slot) && x != "") || x in fixed || (slot == "" && x in noSim)
  {
    var pieces := NonEmpty(Split(slot, ','));
    NonEmptyMembers(Split(slot, ','));
    RemoveAllMembers(pieces, fixed);
    RemoveAllMembers(RemoveAll(pieces, fixed) + fixed, noSim);
  }

  /** What the merged numbers look like once printed and read back. */
  lemma {:induction false} UpdatedSlotReads(slot: string, entries: seq<EccEntry>)
    requires PlainEntries(entries)
    ensures var merged := MergedNumbers(slot, FixedNumbers(entries), NoSimNumbers(entries));
      && SlotNumbers(UpdatedSlot(slot, entries)) == merged
      && NonEmpty(Split(UpdatedSlot(slot, entries), ',')) == merged
      && (UpdatedSlot(slot, entries) == "" <==> merged == [])
  {
    var merged := MergedNumbers(slot, FixedNumbers(entries), NoSimNumbers(entries));
    PlainLists(entries);
    MergedPlain(slot, FixedNumbers(entries), NoSimNumbers(entries));
    if merged != [] { SplitOfJoinExact(merged, ','); }
    NonEmptyOfAllNonEmpty(merged);
    SplitOfJoin(merged, ',');
  }
}
