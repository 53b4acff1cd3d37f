/** In what order a property lists its numbers after an update, read off the
    positions in the custom list and in the property itself. */
module EccOrder {
  import opened JavaText
  import opened EccText
  import opened EccUpdates

  function Numbers(entries: seq<EccEntry>): seq<string> {
    seq(|entries|, i requires 0 <= i < |entries| => entries[i].ecc)
  }

  /** xs are the elements of the source at these positions, from left to right. */
  ghost predicate PickedAt(xs: seq<string>, source: seq<string>, at: seq<int>) {
    && |xs| == |at|
    && (forall k :: 0 <= k < |at| ==> 0 <= at[k] < |source| && source[at[k]] == xs[k])
    && (forall j, k :: 0 <= j < k < |at| ==> at[j] < at[k])
  }

  /** xs are exactly the kept elements of the source, in order, repetitions and all. */
  ghost predicate Picks(xs: seq<string>, source: seq<string>, kept: set<int>) {
    exists at :: PickedAt(xs, source, at) && forall i :: i in at <==> i in kept
  }

  lemma {:induction false} PicksOneMore(xs: seq<string>, source: seq<string>, kept: set<int>, last: string)
    requires Picks(xs, source, kept)
    ensures Picks(xs, source + [last], kept)
    ensures Picks(xs + [last], source + [last], kept + {|source|})
  {
    var at :| PickedAt(xs, source, at) && forall i :: i in at <==> i in kept;
    var n := |source|;
    assert PickedAt(xs, source + [last], at);
    assert PickedAt(xs + [last], source + [last], at + [n]);
    assert forall i :: i in at + [n] <==> i in kept + {n};
  }

  /** The positions of the custom entries for every phone. */
  ghost function Fixed(entries: seq<EccEntry>): set<int> {
    set i | 0 <= i < |entries| && entries[i].condition != "0"
  }

  /** The positions of the numbered entries for phones without a SIM. */
  ghost function ForNoSim(entries: seq<EccEntry>): set<int> {
    set i | 0 <= i < |entries| && entries[i].condition == "0" && entries[i].ecc != ""
  }

  /** The custom numbers come in the order of the file, repetitions and all. */
  lemma {:induction false} FixedInFileOrder(entries: seq<EccEntry>)
    ensures Picks(FixedNumbers(entries), Numbers(entries), Fixed(entries))
  {
    if entries == [] {
      assert PickedAt([], [], []);
    } else {
      var n := |entries| - 1;
      var front := entries[..n];
      FixedInFileOrder(front);
      PicksOneMore(FixedNumbers(front), Numbers(front), Fixed(front), entries[n].ecc);
      assert Numbers(entries) == Numbers(front) + [entries[n].ecc];
      assert Fixed(entries) == Fixed(front) + if entries[n].condition != "0" then {n} else {};
    }
  }

  lemma {:induction false} NoSimInFileOrder(entries: seq<EccEntry>)
    ensures Picks(NoSimNumbers(entries), Numbers(entries), ForNoSim(entries))
  {
    if entries == [] {
      assert PickedAt([], [], []);
    } else {
      var n := |entries| - 1;
      var front, last := entries[..n], entries[n];
      NoSimInFileOrder(front);
      PicksOneMore(NoSimNumbers(front), Numbers(front), ForNoSim(front), last.ecc);
      assert Numbers(entries) == Numbers(front) + [last.ecc];
      assert ForNoSim(entries) == ForNoSim(front) + if last.condition == "0" && last.ecc != "" then {n} else {};
    }
  }

  /** The positions of the elements that are not among ys. */
  ghost function Outside(xs: seq<string>, ys: seq<string>): set<int> {
    set i | 0 <= i < |xs| && xs[i] !in ys
  }

  lemma {:induction false} OutsideOneMore(xs: seq<string>, ys: seq<string>)
    requires xs != []
    ensures var n := |xs| - 1;
      Outside(xs, ys) == Outside(xs[..n], ys) + if xs[n] in ys then {} else {n}
  {
  }

  lemma {:induction false} RemoveAllOneMore(xs: seq<string>, x: string, ys: seq<string>)
    ensures RemoveAll(xs + [x], ys) == if x in ys then RemoveAll(xs, ys) else RemoveAll(xs, ys) + [x]
  {
    RemoveAllAppend(xs, [x], ys);
    assert [x][1..] == [];
  }

  /** removeAll keeps the others in order. */
  lemma {:induction false} RemoveAllInOrder(xs: seq<string>, ys: seq<string>)
    ensures Picks(RemoveAll(xs, ys), xs, Outside(xs, ys))
  {
    if xs == [] {
      assert PickedAt([], [], []);
    } else {
      var n := |xs| - 1;
      var front := xs[..n];
      assert xs == front + [xs[n]];
      RemoveAllInOrder(front, ys);
      RemoveAllOneMore(front, xs[n], ys);
      PicksOneMore(RemoveAll(front, ys), front, Outside(front, ys), xs[n]);
      OutsideOneMore(xs, ys);
      assert Outside(front, ys) + {} == Outside(front, ys);
    }
  }

  ghost predicate FilledSlotPrints(numbers: seq<string>, entries: seq<EccEntry>, kept: seq<string>,
                                   fixed: seq<string>)
  {
    && Picks(kept, numbers, set i | 0 <= i < |numbers| && !FixedIn(numbers[i], entries))
    && Picks(fixed, Numbers(entries), Fixed(entries))
    && UpdatedSlot(Join(numbers, ','), entries) == Join(kept + fixed, ',')
  }

  ghost predicate EmptySlotPrints(entries: seq<EccEntry>, fixed: seq<string>, noSim: seq<string>) {
    && Picks(fixed, Numbers(entries), OnlyFixed(entries))
    && Picks(noSim, Numbers(entries), ForNoSim(entries))
    && UpdatedSlot("", entries) == Join(fixed + noSim, ',')
  }

  /** The property lists what it held and the custom file does not fix, in its own
      order, and behind that the fixed numbers in file order. */
  lemma {:induction false} FilledSlotInOrder(numbers: seq<string>, entries: seq<EccEntry>)
    requires numbers != [] && Plain(numbers)
    ensures exists kept, fixed :: FilledSlotPrints(numbers, entries, kept, fixed)
  {
    var fixed := FixedNumbers(entries);
    SplitOfJoinExact(numbers, ',');
    NonEmptyOfAllNonEmpty(numbers);
    FixedInFileOrder(entries);
    NoSimInFileOrder(entries);
    RemoveAllInOrder(numbers, fixed);
    forall i | 0 <= i < |numbers| ensures numbers[i] in fixed <==> FixedIn(numbers[i], entries) {
      FixedMembers(entries, numbers[i]);
    }
    assert Outside(numbers, fixed)
        == (set i | 0 <= i < |numbers| && !FixedIn(numbers[i], entries));
    assert FilledSlotPrints(numbers, entries, RemoveAll(numbers, fixed), fixed);
  }

  ghost predicate FixedIn(number: string, entries: seq<EccEntry>) {
    exists i :: 0 <= i < |entries| && entries[i].condition != "0" && entries[i].ecc == number
  }

  ghost predicate NoSimIn(number: string, entries: seq<EccEntry>) {
    exists i :: 0 <= i < |entries| && entries[i].condition == "0" && entries[i].ecc == number && number != ""
  }

  ghost function FixedOutside(entries: seq<EccEntry>, ys: seq<string>): set<int> {
    set i | 0 <= i < |entries| && entries[i].condition != "0" && entries[i].ecc !in ys
  }

  lemma {:induction false} FixedOutsideOneMore(entries: seq<EccEntry>, ys: seq<string>)
    requires entries != []
    ensures var n := |entries| - 1;
      FixedOutside(entries, ys)
      == FixedOutside(entries[..n], ys)
         + if entries[n].condition != "0" && entries[n].ecc !in ys then {n} else {}
  {
  }

  lemma {:induction false} FixedOutsideInFileOrder(entries: seq<EccEntry>, ys: seq<string>)
    ensures Picks(RemoveAll(FixedNumbers(entries), ys), Numbers(entries), FixedOutside(entries, ys))
  {
    if entries == [] {
      assert PickedAt([], [], []);
    } else {
      var n := |entries| - 1;
      var front, last := entries[..n], entries[n];
      var before := RemoveAll(FixedNumbers(front), ys);
      FixedOutsideInFileOrder(front, ys);
      PicksOneMore(before, Numbers(front), FixedOutside(front, ys), last.ecc);
      assert Numbers(entries) == Numbers(front) + [last.ecc];
      RemoveAllOneMore(FixedNumbers(front), last.ecc, ys);
      FixedOutsideOneMore(entries, ys);
    }
  }

  ghost function OnlyFixed(entries: seq<EccEntry>): set<int> {
    set i | i in Fixed(entries) && !NoSimIn(entries[i].ecc, entries)
  }

  /** An empty property lists the fixed numbers that are not also for no SIM, and
      behind them those for no SIM, each in file order. */
  lemma {:induction false} EmptySlotInOrder(entries: seq<EccEntry>)
    ensures exists fixed, noSim :: EmptySlotPrints(entries, fixed, noSim)
  {
    var fixed, noSim := FixedNumbers(entries), NoSimNumbers(entries);
    NoSimInFileOrder(entries);
    FixedOutsideInFileOrder(entries, noSim);
    FixedOutsideIsOnlyFixed(entries);
    EmptySlotText(entries);
    assert EmptySlotPrints(entries, RemoveAll(fixed, noSim), noSim);
  }

  lemma {:induction false} FixedOutsideIsOnlyFixed(entries: seq<EccEntry>)
    ensures FixedOutside(entries, NoSimNumbers(entries)) == OnlyFixed(entries)
  {
    forall x ensures x in NoSimNumbers(entries) <==> NoSimIn(x, entries) { NoSimMembers(entries, x); }
  }

  lemma {:induction false} EmptySlotText(entries: seq<EccEntry>)
    ensures var fixed, noSim := FixedNumbers(entries), NoSimNumbers(entries);
      UpdatedSlot("", entries) == Join(RemoveAll(fixed, noSim) + noSim, ',')
  {
    var fixed := FixedNumbers(entries);
    assert NonEmpty(Split("", ',')) == [] && RemoveAll([], fixed) + fixed == fixed;
  }
}
