/** The CTA merge: four numbers every phone certified for CTA must recognise are
    written over, or appended to, the custom list. */
module EccCta {
  import opened EccText

  const CTA_NUMBERS: seq<string> := ["120", "122", "110", "119"]

  function CtaEntry(number: string): EccEntry {
    EccEntry(number, "0", ECC_FOR_MMI)
  }

  /** Where the number first occurs, or the length of the list. */
  function FirstIndex(entries: seq<EccEntry>, number: string): (i: nat)
    ensures i <= |entries|
    ensures i < |entries| ==> entries[i].ecc == number
    ensures forall j :: 0 <= j < i ==> entries[j].ecc != number
  {
    if entries == [] || entries[0].ecc == number then 0 else 1 + FirstIndex(entries[1..], number)
  }

  function MergeOne(entries: seq<EccEntry>, number: string): seq<EccEntry> {
    var i := FirstIndex(entries, number);
    if i < |entries| then entries[i := CtaEntry(number)] else entries + [CtaEntry(number)]
  }

  function MergeAll(entries: seq<EccEntry>, numbers: seq<string>): seq<EccEntry> {
    if numbers == [] then entries
    else MergeOne(MergeAll(entries, numbers[..|numbers| - 1]), numbers[|numbers| - 1])
  }

  ghost predicate Distinct(xs: seq<string>) {
    forall i, j :: 0 <= i < j < |xs| ==> xs[i] != xs[j]
  }

  ghost predicate Lists(entries: seq<EccEntry>, number: string) {
    exists i :: 0 <= i < |entries| && entries[i].ecc == number
  }

  ghost predicate FirstOfItsNumber(entries: seq<EccEntry>, i: int)
    requires 0 <= i < |entries|
  {
    forall j :: 0 <= j < i ==> entries[j].ecc != entries[i].ecc
  }

  ghost function Missing(entries: seq<EccEntry>, numbers: seq<string>): (ms: seq<string>)
    ensures forall x :: x in ms <==> x in numbers && !Lists(entries, x)
  {
    if numbers == [] then []
    else
      var rest := Missing(entries, numbers[..|numbers| - 1]);
      var x := numbers[|numbers| - 1];
      assert forall y :: y in numbers <==> y in numbers[..|numbers| - 1] || y == x;
      if Lists(entries, x) then rest else rest + [x]
  }

  ghost predicate DistinctNumbers(entries: seq<EccEntry>) {
    forall i, j :: 0 <= i < j < |entries| ==> entries[i].ecc != entries[j].ecc
  }

  /** The merged list position by position: in place, only the first entry of
      each merged number changes; behind, the missing numbers come in order. */
  ghost predicate IsMerge(m: seq<EccEntry>, entries: seq<EccEntry>, numbers: seq<string>) {
    && |m| == |entries| + |Missing(entries, numbers)|
    && (forall i :: 0 <= i < |entries| ==>
          m[i] == if entries[i].ecc in numbers && FirstOfItsNumber(entries, i)
                  then CtaEntry(entries[i].ecc) else entries[i])
    && (forall i :: |entries| <= i < |m| ==> m[i] == CtaEntry(Missing(entries, numbers)[i - |entries|]))
  }

  lemma {:induction false} MergeShape(entries: seq<EccEntry>, numbers: seq<string>)
    requires Distinct(numbers)
    ensures IsMerge(MergeAll(entries, numbers), entries, numbers)
  {
    if numbers != [] {
      var front := numbers[..|numbers| - 1];
      var x := numbers[|numbers| - 1];
      MergeShape(entries, front);
      MergeOneMore(MergeAll(entries, front), entries, front, x);
      assert front + [x] == numbers;
    }
  }

  lemma {:induction false} MergeOneMore(before: seq<EccEntry>, entries: seq<EccEntry>, front: seq<string>, x: string)
    requires IsMerge(before, entries, front) && x !in front
    ensures IsMerge(MergeOne(before, x), entries, front + [x])
  {
    var numbers := front + [x];
    assert numbers[..|numbers| - 1] == front;
    var i := FirstIndex(before, x);
    assert forall j :: 0 <= j < |entries| ==> before[j].ecc == entries[j].ecc;
    if i < |entries| {
      assert entries[i].ecc == x && FirstOfItsNumber(entries, i);
    } else {
      assert !Lists(entries, x);
    }
  }

  lemma {:induction false} MergeKeepsDistinct(m: seq<EccEntry>, entries: seq<EccEntry>, numbers: seq<string>)
    requires IsMerge(m, entries, numbers) && Distinct(numbers) && DistinctNumbers(entries)
    ensures DistinctNumbers(m)
  {
    MissingDistinct(entries, numbers);
    var missing := Missing(entries, numbers);
    forall i, j | 0 <= i < j < |m| ensures m[i].ecc != m[j].ecc {
      if i < |entries| <= j {
        assert missing[j - |entries|] in missing;
      }
    }
  }

  lemma {:induction false} MissingDistinct(entries: seq<EccEntry>, numbers: seq<string>)
    requires Distinct(numbers)
    ensures Distinct(Missing(entries, numbers))
  {
    if numbers != [] {
      var front := numbers[..|numbers| - 1];
      MissingDistinct(entries, front);
      var x := numbers[|numbers| - 1];
      assert x !in front;
      assert forall k :: 0 <= k < |Missing(entries, front)| ==> Missing(entries, front)[k] in front;
    }
  }

  /** Every merged number is held by the first entry that names it. */
  lemma {:induction false} MergedNumberListed(m: seq<EccEntry>, entries: seq<EccEntry>, numbers: seq<string>, x: string)
    requires IsMerge(m, entries, numbers) && x in numbers
    ensures FirstIndex(m, x) < |m| && m[FirstIndex(m, x)] == CtaEntry(x)
  {
    var i := FirstIndex(m, x);
    assert forall j :: 0 <= j < |entries| ==> m[j].ecc == entries[j].ecc;
    if Lists(entries, x) {
      var j :| 0 <= j < |entries| && entries[j].ecc == x;
      assert m[j].ecc == x;
      assert FirstOfItsNumber(entries, i);
    } else {
      var k :| 0 <= k < |Missing(entries, numbers)| && Missing(entries, numbers)[k] == x;
      assert m[|entries| + k].ecc == x;
    }
  }

  lemma {:induction false} MergeAgainIsIdle(m: seq<EccEntry>, numbers: seq<string>)
    requires forall x :: x in numbers ==> FirstIndex(m, x) < |m| && m[FirstIndex(m, x)] == CtaEntry(x)
    ensures MergeAll(m, numbers) == m
  {
    if numbers != [] { MergeAgainIsIdle(m, numbers[..|numbers| - 1]); }
  }

  /** The merge is idempotent, for every list. */
  lemma {:induction false} MergeIdempotent(entries: seq<EccEntry>, numbers: seq<string>)
    requires Distinct(numbers)
    ensures MergeAll(MergeAll(entries, numbers), numbers) == MergeAll(entries, numbers)
  {
    var m := MergeAll(entries, numbers);
    MergeShape(entries, numbers);
    forall x | x in numbers ensures FirstIndex(m, x) < |m| && m[FirstIndex(m, x)] == CtaEntry(x) {
      MergedNumberListed(m, entries, numbers, x);
    }
    MergeAgainIsIdle(m, numbers);
  }

  /** After the merge the four CTA numbers, bare or with a trailing plus, are
      accepted whatever the network and the SIM slots hold. */
  lemma {:induction false} CtaNumbersAlwaysAccepted(entries: seq<EccEntry>, categories: map<string, int>,
                                                    sim1: string, sim2: string, x: string)
    requires x in CTA_NUMBERS
    ensures var m := MergeAll(entries, CTA_NUMBERS);
      Accepts(categories, sim1, sim2, m, x) && Accepts(categories, sim1, sim2, m, x + "+")
  {
    var m := MergeAll(entries, CTA_NUMBERS);
    MergeShape(entries, CTA_NUMBERS);
    MergedNumberListed(m, entries, CTA_NUMBERS, x);
    var i := FirstIndex(m, x);
    assert Matches(m[i].ecc, x) && Matches(m[i].ecc, x + "+");
    assert ECC_FOR_MMI[0] != ECC_NO_SIM[0];
  }
}
