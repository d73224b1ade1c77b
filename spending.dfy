/**
 * The spending-category consolidation done before the spending doughnut
 * chart is drawn: income categories are dropped, categories whose share of
 * the total is below 3% are pooled into one "Other" bucket, and every other
 * category is charted with its amount unchanged.
 *
 * The breakdown is a JavaScript object (category -> amount). It is modelled
 * as a sequence of entries in the object's iteration order, with distinct
 * keys; amounts are exact reals.
 */
module SpendingChart {
  import opened Labels
  import opened Optional

  datatype Entry = Entry(category: string, amount: real)

  /** Categories below this share of the total are pooled into Other. */
  const Threshold: real := 0.03

  function Init(d: seq<Entry>): seq<Entry>
    requires d != []
  {
    d[..|d| - 1]
  }

  function Last(d: seq<Entry>): Entry
    requires d != []
  {
    d[|d| - 1]
  }

  // ---------------------------------------------------------------------------
  // The breakdown as a JavaScript object: keys in order, lookup, assignment
  // ---------------------------------------------------------------------------

  /** `Object.keys(d)`: the chart labels. */
  function Keys(d: seq<Entry>): seq<string>
  {
    seq(|d|, i requires 0 <= i < |d| => d[i].category)
  }

  /** Object keys are unique. */
  predicate DistinctKeys(d: seq<Entry>)
  {
    forall i, j :: 0 <= i < j < |d| ==> d[i].category != d[j].category
  }

  /** Position of the entry stored under `key`, or `|d|` when there is none. */
  function Find(d: seq<Entry>, key: string): (i: nat)
    ensures i <= |d|
    ensures i < |d| ==> d[i].category == key
    ensures forall j :: 0 <= j < i ==> d[j].category != key
  {
    if d == [] then 0 else if d[0].category == key then 0 else 1 + Find(d[1..], key)
  }

  /** `key` is found exactly when it is one of the object's keys. */
  lemma FindKeys(d: seq<Entry>, key: string)
    ensures Find(d, key) < |d| <==> key in Keys(d)
  {
    var i := Find(d, key);
    if i < |d| {
      assert Keys(d)[i] == key;
    }
    if key in Keys(d) {
      var j :| 0 <= j < |d| && Keys(d)[j] == key;
      assert d[j].category == key;
    }
  }

  /** With unique keys, each entry is found at its own position. */
  lemma FindDistinct(d: seq<Entry>, i: nat)
    requires DistinctKeys(d) && i < |d|
    ensures Find(d, d[i].category) == i
  {
  }

  /** `d[key]`: the amount stored under `key`, or None (`undefined`). */
  function Lookup(d: seq<Entry>, key: string): Option<real>
  {
    var i := Find(d, key);
    if i < |d| then Some(d[i].amount) else None
  }

  /** `d[key] = value` */
  function Put(d: seq<Entry>, key: string, value: real): seq<Entry>
  {
    var i := Find(d, key);
    if i < |d| then d[i := Entry(key, value)] else d + [Entry(key, value)]
  }

  /** In an object with unique keys, each entry is what its key looks up. */
  lemma LookupDistinct(d: seq<Entry>, i: nat)
    requires DistinctKeys(d) && i < |d|
    ensures Lookup(d, d[i].category) == Some(d[i].amount)
  {
    FindDistinct(d, i);
  }

  /**
   * Property assignment: afterwards `key` looks up `value` and every other key
   * looks up what it did before; an existing key keeps its position and a new
   * key is appended after all existing ones; keys stay unique.
   */
  lemma PutSemantics(d: seq<Entry>, key: string, value: real)
    requires DistinctKeys(d)
    ensures var r := Put(d, key, value);
            && Keys(r) == (if key in Keys(d) then Keys(d) else Keys(d) + [key])
            && Lookup(r, key) == Some(value)
            && (forall k :: k != key ==> Lookup(r, k) == Lookup(d, k))
            && DistinctKeys(r)
  {
    var r := Put(d, key, value);
    FindKeys(d, key);
    if key in Keys(d) {
      var j := Find(d, key);
      assert Keys(r) == Keys(d);
      LookupDistinct(r, j);
    } else {
      assert Keys(r) == Keys(d) + [key];
      AppendNewKey(d, Entry(key, value));
      LookupDistinct(r, |d|);
    }
    forall k | k != key
      ensures Lookup(r, k) == Lookup(d, k)
    {
      FindKeys(d, k);
      if k in Keys(d) {
        var i := Find(d, k);
        LookupDistinct(r, i);
      }
    }
  }

  /** Appending an entry under a new key keeps the keys unique. */
  lemma AppendNewKey(d: seq<Entry>, e: Entry)
    requires DistinctKeys(d) && e.category !in Keys(d)
    ensures DistinctKeys(d + [e])
  {
    forall i | 0 <= i < |d|
      ensures d[i].category != e.category
    {
      assert Keys(d)[i] == d[i].category;
    }
  }

  /** A new key is appended. */
  lemma PutNewKey(d: seq<Entry>, key: string, value: real)
    requires key !in Keys(d)
    ensures Put(d, key, value) == d + [Entry(key, value)]
  {
    FindKeys(d, key);
  }

  /** An existing key is updated at its position, with unique keys its only one. */
  lemma PutExistingKey(d: seq<Entry>, i: nat, value: real)
    requires DistinctKeys(d) && i < |d|
    ensures Put(d, d[i].category, value) == d[i := Entry(d[i].category, value)]
  {
    FindDistinct(d, i);
  }

  /** Sum of the amounts, as `reduce((sum, value) => sum + value, 0)` computes it. */
  function Sum(d: seq<Entry>): real
  {
    if d == [] then 0.0 else Sum(Init(d)) + Last(d).amount
  }

  // ---------------------------------------------------------------------------
  // The decisions taken for each category
  // ---------------------------------------------------------------------------

  /**
   * `amount / total < 0.03` evaluated over exact reals: a positive total keeps
   * the direction of the inequality and a negative one reverses it; with a
   * zero total the quotient is -Infinity for a negative amount (below the
   * threshold) and +Infinity or NaN otherwise (not below it).
   */
  predicate BelowShare(amount: real, total: real)
  {
    if total > 0.0 then amount < Threshold * total
    else if total < 0.0 then amount > Threshold * total
    else amount < 0.0
  }

  /** A category that is charted under its own name. */
  predicate Survives(e: Entry, total: real)
  {
    !IsIncome(e.category) && !BelowShare(e.amount, total)
  }

  /** A category whose amount is pooled into Other. */
  predicate Pooled(e: Entry, total: real)
  {
    !IsIncome(e.category) && BelowShare(e.amount, total)
  }

  /** The surviving categories, in input order. */
  function Kept(d: seq<Entry>, total: real): seq<Entry>
  {
    if d == [] then []
    else Kept(Init(d), total) + if Survives(Last(d), total) then [Last(d)] else []
  }

  /** The amount pooled into Other (`otherTotal`). */
  function Spill(d: seq<Entry>, total: real): real
  {
    if d == [] then 0.0
    else Spill(Init(d), total) + if Pooled(Last(d), total) then Last(d).amount else 0.0
  }

  /** The categories that are not income, in input order. */
  function Spending(d: seq<Entry>): seq<Entry>
  {
    if d == [] then []
    else Spending(Init(d)) + if IsIncome(Last(d).category) then [] else [Last(d)]
  }

  /**
   * The consolidated breakdown: survivors in input order, and the pooled
   * amount, if positive, added to Other (`(d['Other'] || 0) + otherTotal`).
   * The share is measured against the sum of ALL input amounts, income
   * included.
   */
  function Consolidated(spending: seq<Entry>): seq<Entry>
  {
    var total := Sum(spending);
    WithOther(Kept(spending, total), Spill(spending, total))
  }

  /** The step after the loop: a positive pooled amount is added to Other. */
  function WithOther(kept: seq<Entry>, spill: real): seq<Entry>
  {
    if spill > 0.0 then Put(kept, OtherLabel, Lookup(kept, OtherLabel).GetOr(0.0) + spill)
    else kept
  }

  // ---------------------------------------------------------------------------
  // The loop of renderSpendingChart
  // ---------------------------------------------------------------------------

  method ConsolidateSpending(spending: seq<Entry>) returns (consolidated: seq<Entry>)
    requires DistinctKeys(spending)
    ensures consolidated == Consolidated(spending)
  {
    var totalSpending := Sum(spending);
    consolidated := [];
    var otherTotal := 0.0;
    for i := 0 to |spending|
      invariant consolidated == Kept(spending[..i], totalSpending)
      invariant otherTotal == Spill(spending[..i], totalSpending)
    {
      var category, amount := spending[i].category, spending[i].amount;
      PrefixStep(spending, i, totalSpending);
      if IsIncome(category) {
        continue;
      }
      if BelowShare(amount, totalSpending) {
        otherTotal := otherTotal + amount;
      } else {
        NextKeyIsNew(spending, i, totalSpending);
        PutNewKey(consolidated, category, amount);
        consolidated := Put(consolidated, category, amount);
      }
    }
    assert spending[..|spending|] == spending;
    assert consolidated == Kept(spending, totalSpending);
    assert otherTotal == Spill(spending, totalSpending);
    ghost var kept := consolidated;
    if otherTotal > 0.0 {
      consolidated := Put(consolidated, OtherLabel, Lookup(consolidated, OtherLabel).GetOr(0.0) + otherTotal);
    }
    assert consolidated == WithOther(kept, otherTotal);
  }

  /** The decision for entry `i`, after those for the entries before it. */
  lemma PrefixStep(d: seq<Entry>, i: nat, total: real)
    requires i < |d|
    ensures Kept(d[..i + 1], total) == Kept(d[..i], total) + if Survives(d[i], total) then [d[i]] else []
    ensures Spill(d[..i + 1], total) == Spill(d[..i], total) + if Pooled(d[i], total) then d[i].amount else 0.0
  {
    assert d[..i + 1] == d[..i] + [d[i]];
    Step(d[..i], d[i], total);
  }

  // ---------------------------------------------------------------------------
  // Survivors and the pooled amount
  // ---------------------------------------------------------------------------

  /** An entry is kept exactly when it is an input entry that passes both tests. */
  lemma {:induction false} KeptFrom(d: seq<Entry>, total: real)
    ensures forall e :: e in Kept(d, total) <==> e in d && Survives(e, total)
  {
    if d != [] {
      KeptFrom(Init(d), total);
      assert d == Init(d) + [Last(d)];
    }
  }

  /** The input positions of the survivors, in input order. */
  function KeptPositions(d: seq<Entry>, total: real): seq<nat>
  {
    if d == [] then []
    else KeptPositions(Init(d), total) + if Survives(Last(d), total) then [|d| - 1] else []
  }

  /**
   * The survivors keep their input order: their input positions are strictly
   * increasing, map to the survivors rank by rank, and are exactly the
   * positions whose entry survives.
   */
  lemma {:induction false} KeptInOrder(d: seq<Entry>, total: real)
    ensures var idx := KeptPositions(d, total);
            && |idx| == |Kept(d, total)|
            && (forall k :: 0 <= k < |idx| ==> idx[k] < |d| && d[idx[k]] == Kept(d, total)[k])
            && (forall k, m :: 0 <= k < m < |idx| ==> idx[k] < idx[m])
            && (forall i :: 0 <= i < |d| ==> (i in idx <==> Survives(d[i], total)))
  {
    if d != [] {
      var init := Init(d);
      KeptInOrder(init, total);
      var prev, idx := KeptPositions(init, total), KeptPositions(d, total);
      var kept := Kept(d, total);
      assert |prev| == |Kept(init, total)|;
      assert kept == Kept(init, total) + if Survives(Last(d), total) then [Last(d)] else [];
      forall k | 0 <= k < |idx|
        ensures idx[k] < |d| && d[idx[k]] == kept[k]
      {
        if k < |prev| {
          assert idx[k] == prev[k] && kept[k] == Kept(init, total)[k];
          assert d[prev[k]] == init[prev[k]];
        }
      }
      forall i | 0 <= i < |d|
        ensures i in idx <==> Survives(d[i], total)
      {
        if i < |d| - 1 {
          assert d[i] == init[i];
          assert i in idx <==> i in prev;
        }
      }
    }
  }

  /** Only non-income entries are kept, so there are at most that many. */
  lemma {:induction false} KeptWithinSpending(d: seq<Entry>, total: real)
    ensures |Kept(d, total)| <= |Spending(d)|
  {
    if d != [] {
      KeptWithinSpending(Init(d), total);
    }
  }

  /** Every non-income amount is either kept or pooled. */
  lemma {:induction false} SpendingSplits(d: seq<Entry>, total: real)
    ensures Sum(Spending(d)) == Sum(Kept(d, total)) + Spill(d, total)
  {
    if d != [] {
      SpendingSplits(Init(d), total);
      var e := Last(d);
      if IsIncome(e.category) {
        assert Spending(d) == Spending(Init(d));
        assert Kept(d, total) == Kept(Init(d), total);
      } else {
        SumAppend(Spending(Init(d)), e);
        if Survives(e, total) {
          SumAppend(Kept(Init(d), total), e);
        } else {
          assert Kept(d, total) == Kept(Init(d), total);
        }
      }
    }
  }

  /** Kept keys are distinct when the input's are. */
  lemma {:induction false} KeptDistinct(d: seq<Entry>, total: real)
    requires DistinctKeys(d)
    ensures DistinctKeys(Kept(d, total))
  {
    if d != [] {
      assert DistinctKeys(Init(d));
      KeptDistinct(Init(d), total);
      assert Init(d) == d[..|d| - 1];
      NextKeyIsNew(d, |d| - 1, total);
      var k := Kept(Init(d), total);
      if Survives(Last(d), total) {
        AppendNewKey(k, Last(d));
      }
    }
  }

  // ---------------------------------------------------------------------------
  // Sums
  // ---------------------------------------------------------------------------

  predicate NonNegative(d: seq<Entry>)
  {
    forall i :: 0 <= i < |d| ==> d[i].amount >= 0.0
  }

  lemma SumAppend(d: seq<Entry>, e: Entry)
    ensures Sum(d + [e]) == Sum(d) + e.amount
  {
    assert Init(d + [e]) == d;
  }

  /** Replacing one entry changes the sum by the difference of the amounts. */
  lemma {:induction false} SumUpdate(d: seq<Entry>, i: nat, e: Entry)
    requires i < |d|
    ensures Sum(d[i := e]) == Sum(d) - d[i].amount + e.amount
  {
    if i < |d| - 1 {
      assert Init(d[i := e]) == Init(d)[i := e];
      SumUpdate(Init(d), i, e);
    } else {
      assert Init(d[i := e]) == Init(d);
    }
  }

  /** `d[key] = value` replaces the old amount under `key`, or adds a new one. */
  lemma SumPut(d: seq<Entry>, key: string, value: real)
    ensures Sum(Put(d, key, value)) == Sum(d) - Lookup(d, key).GetOr(0.0) + value
  {
    if Find(d, key) < |d| {
      SumUpdate(d, Find(d, key), Entry(key, value));
    } else {
      SumAppend(d, Entry(key, value));
    }
  }

  lemma {:induction false} SumNonNegative(d: seq<Entry>)
    requires NonNegative(d)
    ensures Sum(d) >= 0.0
  {
    if d != [] {
      SumNonNegative(Init(d));
    }
  }

  lemma {:induction false} SpillNonNegative(d: seq<Entry>, total: real)
    requires NonNegative(d)
    ensures Spill(d, total) >= 0.0
  {
    if d != [] {
      SpillNonNegative(Init(d), total);
    }
  }

  /** Dropping the income entries never raises the sum of non-negative amounts. */
  lemma {:induction false} SpendingAtMostTotal(d: seq<Entry>)
    requires NonNegative(d)
    ensures NonNegative(Spending(d))
    ensures 0.0 <= Sum(Spending(d)) <= Sum(d)
  {
    if d != [] {
      SpendingAtMostTotal(Init(d));
      assert Last(d).amount >= 0.0;
      if IsIncome(Last(d).category) {
        assert Spending(d) == Spending(Init(d));
      } else {
        SumAppend(Spending(Init(d)), Last(d));
      }
    }
  }

  /** With unique keys, the next category is not among those kept so far. */
  lemma NextKeyIsNew(d: seq<Entry>, i: nat, total: real)
    requires DistinctKeys(d) && i < |d|
    ensures d[i].category !in Keys(Kept(d[..i], total))
  {
    var kept := Kept(d[..i], total);
    KeptFrom(d[..i], total);
    forall k | 0 <= k < |kept|
      ensures kept[k].category != d[i].category
    {
      assert kept[k] in d[..i];
    }
  }


  /** `amount / total < 0.03`, for every total that is not zero. */
  lemma BelowShareIsRatio(amount: real, total: real)
    requires total != 0.0
    ensures BelowShare(amount, total) <==> amount / total < Threshold
  {
    var q := amount / total;
    assert amount == q * total;
    if total > 0.0 {
      if q < Threshold {
        assert q * total < Threshold * total;
      } else {
        assert q * total >= Threshold * total;
      }
    } else {
      if q < Threshold {
        assert q * total > Threshold * total;
      } else {
        assert q * total <= Threshold * total;
      }
    }
  }

  /** A survivor still survives against a smaller total, with at least its amount. */
  lemma SurvivesAtSmallerTotal(e: Entry, total: real, smaller: real, amount: real)
    requires Survives(e, total) && e.amount >= 0.0
    requires 0.0 <= smaller <= total && amount >= e.amount
    ensures Survives(Entry(e.category, amount), smaller)
  {
    if smaller > 0.0 {
      assert Threshold * smaller <= Threshold * total;
    }
  }

  /** With nothing below the threshold, the loop keeps every entry and pools nothing. */
  lemma AllSurvive(d: seq<Entry>, total: real)
    requires forall i :: 0 <= i < |d| ==> Survives(d[i], total)
    ensures Kept(d, total) == d && Spill(d, total) == 0.0
  {
    AllSurvivePrefix(d, total, |d|);
    assert d[..|d|] == d;
  }

  /** Every prefix of an input whose entries all survive is kept whole. */
  lemma {:induction false} AllSurvivePrefix(d: seq<Entry>, total: real, n: nat)
    requires n <= |d|
    requires forall i :: 0 <= i < |d| ==> Survives(d[i], total)
    ensures Kept(d[..n], total) == d[..n] && Spill(d[..n], total) == 0.0
  {
    if n > 0 {
      AllSurvivePrefix(d, total, n - 1);
      PrefixStep(d, n - 1, total);
      assert Survives(d[n - 1], total);
      assert d[..n - 1] + [d[n - 1]] == d[..n];
    }
  }

  /** With a zero total no share is below the threshold: every non-income entry is kept. */
  lemma {:induction false} NothingPooledAtZero(d: seq<Entry>)
    requires NonNegative(d)
    ensures Kept(d, 0.0) == Spending(d) && Spill(d, 0.0) == 0.0
  {
    if d != [] {
      NothingPooledAtZero(Init(d));
      assert Last(d).amount >= 0.0;
    }
  }

  // ---------------------------------------------------------------------------
  // Properties of the consolidated breakdown
  // ---------------------------------------------------------------------------

  /**
   * The step after the loop, on any survivor list with unique keys: nothing
   * changes unless a positive amount was pooled; then a new Other entry is
   * appended after all survivors, or a surviving Other is raised in place.
   */
  lemma WithOtherShape(kept: seq<Entry>, spill: real)
    requires DistinctKeys(kept)
    ensures var result := WithOther(kept, spill);
            && (spill <= 0.0 ==> result == kept)
            && (spill > 0.0 && OtherLabel !in Keys(kept) ==> result == kept + [Entry(OtherLabel, spill)])
            && (spill > 0.0 && OtherLabel in Keys(kept) ==>
                  |result| == |kept| &&
                  forall i :: 0 <= i < |kept| ==>
                    result[i] == if kept[i].category == OtherLabel then Entry(OtherLabel, kept[i].amount + spill) else kept[i])
  {
    FindKeys(kept, OtherLabel);
    if spill > 0.0 && OtherLabel in Keys(kept) {
      var j := Find(kept, OtherLabel);
      LookupDistinct(kept, j);
      PutExistingKey(kept, j, kept[j].amount + spill);
    }
  }

  /** The step after the loop leaves every survivor's label at its position. */
  lemma WithOtherKeepsLabels(kept: seq<Entry>, spill: real)
    ensures |WithOther(kept, spill)| >= |kept|
    ensures forall i :: 0 <= i < |kept| ==> WithOther(kept, spill)[i].category == kept[i].category
  {
    if spill > 0.0 {
      var value := Lookup(kept, OtherLabel).GetOr(0.0) + spill;
      if OtherLabel in Keys(kept) {
        var j := Find(kept, OtherLabel);
        assert kept[j].category == OtherLabel;
      } else {
        PutNewKey(kept, OtherLabel, value);
      }
    }
  }

  /** The step after the loop adds exactly the pooled amount, when it is not negative. */
  lemma SumWithOther(kept: seq<Entry>, spill: real)
    requires spill >= 0.0
    ensures Sum(WithOther(kept, spill)) == Sum(kept) + spill
  {
    if spill > 0.0 {
      SumPut(kept, OtherLabel, Lookup(kept, OtherLabel).GetOr(0.0) + spill);
    }
  }

  /**
   * The result is the survivors alone when nothing positive was pooled; the
   * survivors followed by a new Other entry when no Other survived; and the
   * survivors with the pooled amount added to the surviving Other otherwise.
   */
  lemma ConsolidatedShape(spending: seq<Entry>)
    requires DistinctKeys(spending)
    ensures var total := Sum(spending);
            var kept, spill := Kept(spending, total), Spill(spending, total);
            var result := Consolidated(spending);
            && (spill <= 0.0 ==> result == kept)
            && (spill > 0.0 && OtherLabel !in Keys(kept) ==> result == kept + [Entry(OtherLabel, spill)])
            && (spill > 0.0 && OtherLabel in Keys(kept) ==>
                  |result| == |kept| &&
                  forall i :: 0 <= i < |kept| ==>
                    result[i] == if kept[i].category == OtherLabel then Entry(OtherLabel, kept[i].amount + spill) else kept[i])
            && DistinctKeys(result)
  {
    var total := Sum(spending);
    KeptDistinct(spending, total);
    WithOtherShape(Kept(spending, total), Spill(spending, total));
    WithOtherDistinct(Kept(spending, total), Spill(spending, total));
  }

  /** The step after the loop keeps the chart labels unique. */
  lemma WithOtherDistinct(kept: seq<Entry>, spill: real)
    requires DistinctKeys(kept)
    ensures DistinctKeys(WithOther(kept, spill))
  {
    if spill > 0.0 {
      PutSemantics(kept, OtherLabel, Lookup(kept, OtherLabel).GetOr(0.0) + spill);
    }
  }

  /** No charted label contains "income" in any letter case. */
  lemma ConsolidatedHasNoIncome(spending: seq<Entry>)
    ensures forall e :: e in Consolidated(spending) ==> !IsIncome(e.category)
  {
    KeptFrom(spending, Sum(spending));
    OtherIsNotIncome();
  }

  /**
   * Apart from Other, the charted entries are exactly the input entries that
   * are not income and whose share of the whole total is at least 3%, with
   * their amounts unchanged.
   */
  lemma ConsolidatedEntries(spending: seq<Entry>)
    requires DistinctKeys(spending)
    ensures forall e: Entry :: e.category != OtherLabel ==>
              (e in Consolidated(spending) <==> e in spending && Survives(e, Sum(spending)))
  {
    var total := Sum(spending);
    KeptFrom(spending, total);
    ConsolidatedShape(spending);
  }

  /** What `key` looks up in the input, if that entry survives against `total`. */
  function SurvivingAmount(d: seq<Entry>, key: string, total: real): Option<real>
  {
    match Lookup(d, key)
    case Some(a) => if Survives(Entry(key, a), total) then Some(a) else None
    case None => None
  }

  /** Looking a key up among the survivors finds it only if it survived, with its amount. */
  lemma LookupKept(d: seq<Entry>, key: string, total: real)
    requires DistinctKeys(d)
    ensures Lookup(Kept(d, total), key) == SurvivingAmount(d, key, total)
  {
    var i := Find(d, key);
    if i < |d| {
      LookupDistinct(d, i);
      assert d[i] == Entry(key, d[i].amount);
      if Survives(d[i], total) {
        LookupKeptFound(d, i, total);
      } else {
        LookupKeptMissing(d, key, total);
      }
    } else {
      LookupKeptMissing(d, key, total);
    }
  }

  /** A surviving entry is looked up among the survivors with its amount. */
  lemma LookupKeptFound(d: seq<Entry>, i: nat, total: real)
    requires DistinctKeys(d) && i < |d| && Survives(d[i], total)
    ensures Lookup(Kept(d, total), d[i].category) == Some(d[i].amount)
  {
    var idx, kept := KeptPositions(d, total), Kept(d, total);
    KeptInOrder(d, total);
    KeptDistinct(d, total);
    var k :| 0 <= k < |idx| && idx[k] == i;
    assert kept[k] == d[i];
    LookupDistinct(kept, k);
  }

  /** A key with no surviving entry is missing among the survivors. */
  lemma LookupKeptMissing(d: seq<Entry>, key: string, total: real)
    requires forall i :: 0 <= i < |d| && d[i].category == key ==> !Survives(d[i], total)
    ensures Lookup(Kept(d, total), key) == None
  {
    var idx, kept := KeptPositions(d, total), Kept(d, total);
    KeptInOrder(d, total);
    forall j | 0 <= j < |kept|
      ensures kept[j].category != key
    {
      assert kept[j] == d[idx[j]] && idx[j] in idx;
    }
    FindKeys(kept, key);
  }

  /** The step after the loop sets Other to its surviving amount plus a positive pooled amount. */
  lemma LookupWithOther(kept: seq<Entry>, spill: real)
    requires DistinctKeys(kept)
    ensures Lookup(WithOther(kept, spill), OtherLabel) ==
              if spill > 0.0 then Some(Lookup(kept, OtherLabel).GetOr(0.0) + spill)
              else Lookup(kept, OtherLabel)
  {
    if spill > 0.0 {
      PutSemantics(kept, OtherLabel, Lookup(kept, OtherLabel).GetOr(0.0) + spill);
    }
  }

  /**
   * Other is charted only when it survived in the input or a strictly positive
   * amount was pooled; the pooled amount is added to a surviving Other.
   */
  lemma ConsolidatedOther(spending: seq<Entry>)
    requires DistinctKeys(spending)
    ensures var total := Sum(spending);
            var spill, own := Spill(spending, total), SurvivingAmount(spending, OtherLabel, total);
            Lookup(Consolidated(spending), OtherLabel) ==
              if spill > 0.0 then Some(own.GetOr(0.0) + spill) else own
  {
    var total := Sum(spending);
    var spill, own := Spill(spending, total), SurvivingAmount(spending, OtherLabel, total);
    var c := WithOther(Kept(spending, total), spill);
    assert Consolidated(spending) == c;
    OtherAfterLoop(spending, total);
    if spill > 0.0 {
      assert Lookup(c, OtherLabel) == Some(own.GetOr(0.0) + spill);
    } else {
      assert Lookup(c, OtherLabel) == own;
    }
  }

  /** `ConsolidatedOther`, against any total. */
  lemma OtherAfterLoop(d: seq<Entry>, total: real)
    requires DistinctKeys(d)
    ensures var spill, own := Spill(d, total), SurvivingAmount(d, OtherLabel, total);
            Lookup(WithOther(Kept(d, total), spill), OtherLabel) ==
              if spill > 0.0 then Some(own.GetOr(0.0) + spill) else own
  {
    var kept, spill, own := Kept(d, total), Spill(d, total), SurvivingAmount(d, OtherLabel, total);
    LookupKept(d, OtherLabel, total);
    KeptDistinct(d, total);
    LookupWithOther(kept, spill);
    if spill > 0.0 {
      assert Lookup(WithOther(kept, spill), OtherLabel) == Some(Lookup(kept, OtherLabel).GetOr(0.0) + spill);
      assert Lookup(kept, OtherLabel).GetOr(0.0) == own.GetOr(0.0);
    } else {
      assert Lookup(WithOther(kept, spill), OtherLabel) == Lookup(kept, OtherLabel);
    }
  }

  /** Survivors keep their input order (`ConsolidatedShape` places a new Other after all of them). */
  lemma ConsolidatedOrder(spending: seq<Entry>, i: nat, j: nat)
    requires i < j < |spending|
    requires Survives(spending[i], Sum(spending)) && Survives(spending[j], Sum(spending))
    ensures exists p, q :: 0 <= p < q < |Consolidated(spending)| &&
              Consolidated(spending)[p].category == spending[i].category &&
              Consolidated(spending)[q].category == spending[j].category
  {
    var total := Sum(spending);
    var idx := KeptPositions(spending, total);
    var kept := Kept(spending, total);
    KeptInOrder(spending, total);
    WithOtherKeepsLabels(kept, Spill(spending, total));
    var p :| 0 <= p < |idx| && idx[p] == i;
    var q :| 0 <= q < |idx| && idx[q] == j;
    assert Consolidated(spending)[p].category == kept[p].category;
    assert Consolidated(spending)[q].category == kept[q].category;
  }

  /**
   * Nothing is lost or invented: the charted amounts add up to the sum of the
   * non-income input amounts.
   */
  lemma ConsolidatedSum(spending: seq<Entry>)
    requires NonNegative(spending)
    ensures Sum(Consolidated(spending)) == Sum(Spending(spending))
  {
    var total := Sum(spending);
    SpendingSplits(spending, total);
    SpillNonNegative(spending, total);
    SumWithOther(Kept(spending, total), Spill(spending, total));
  }

  /** At most one chart slice per non-income category, plus Other. */
  lemma ConsolidatedSize(spending: seq<Entry>)
    ensures |Consolidated(spending)| <= |Spending(spending)| + 1
  {
    var total := Sum(spending);
    KeptWithinSpending(spending, total);
  }

  /** A zero total pools nothing: every non-income entry is charted unchanged. */
  lemma ZeroTotalPassesThrough(spending: seq<Entry>)
    requires NonNegative(spending) && Sum(spending) == 0.0
    ensures Consolidated(spending) == Spending(spending)
  {
    NothingPooledAtZero(spending);
  }

  /** A breakdown with no income and no small category is charted as it is. */
  lemma NothingToConsolidate(spending: seq<Entry>)
    requires forall i :: 0 <= i < |spending| ==> Survives(spending[i], Sum(spending))
    ensures Consolidated(spending) == spending
  {
    AllSurvive(spending, Sum(spending));
  }

  /** Each survivor passes both tests and, for non-negative input, is non-negative. */
  lemma KeptSurvives(d: seq<Entry>, total: real)
    requires NonNegative(d)
    ensures forall i :: 0 <= i < |Kept(d, total)| ==>
              Survives(Kept(d, total)[i], total) && Kept(d, total)[i].amount >= 0.0
  {
    var kept := Kept(d, total);
    KeptFrom(d, total);
    forall i | 0 <= i < |kept|
      ensures Survives(kept[i], total) && kept[i].amount >= 0.0
    {
      assert kept[i] in d;
    }
  }

  /**
   * Entries with the labels of survivors and at least their amounts survive
   * against any smaller non-negative total.
   */
  lemma StillSurvive(kept: seq<Entry>, raised: seq<Entry>, total: real, smaller: real)
    requires forall i :: 0 <= i < |kept| ==> Survives(kept[i], total) && kept[i].amount >= 0.0
    requires |raised| == |kept|
    requires forall i :: 0 <= i < |kept| ==>
               raised[i].category == kept[i].category && raised[i].amount >= kept[i].amount
    requires 0.0 <= smaller <= total
    ensures Kept(raised, smaller) == raised && Spill(raised, smaller) == 0.0
  {
    forall i | 0 <= i < |raised|
      ensures Survives(raised[i], smaller)
    {
      SurvivesAtSmallerTotal(kept[i], total, smaller, raised[i].amount);
      assert raised[i] == Entry(kept[i].category, raised[i].amount);
    }
    AllSurvive(raised, smaller);
  }

  /**
   * A new Other entry appended after survivors is either kept on a second
   * pass or pooled again into a new Other entry with the same amount.
   */
  lemma ReconsolidateNewOther(kept: seq<Entry>, spill: real, total: real)
    requires Kept(kept, total) == kept && Spill(kept, total) == 0.0
    requires spill > 0.0 && OtherLabel !in Keys(kept)
    ensures var result := kept + [Entry(OtherLabel, spill)];
            WithOther(Kept(result, total), Spill(result, total)) == result
  {
    var other := Entry(OtherLabel, spill);
    var result := kept + [other];
    assert Init(result) == kept && Last(result) == other;
    OtherIsNotIncome();
    if Survives(other, total) {
      assert Kept(result, total) == result;
      assert Spill(result, total) == 0.0;
    } else {
      assert Kept(result, total) == kept;
      assert Spill(result, total) == spill;
      FindKeys(kept, OtherLabel);
      assert Lookup(kept, OtherLabel) == None;
      PutNewKey(kept, OtherLabel, spill);
    }
  }

  /** The step after the loop, done on survivors, survives a second pass unchanged. */
  lemma ReconsolidateWithOther(kept: seq<Entry>, spill: real, total: real, smaller: real)
    requires DistinctKeys(kept)
    requires forall i :: 0 <= i < |kept| ==> Survives(kept[i], total) && kept[i].amount >= 0.0
    requires spill >= 0.0 && 0.0 <= smaller <= total
    ensures var result := WithOther(kept, spill);
            WithOther(Kept(result, smaller), Spill(result, smaller)) == result
  {
    var result := WithOther(kept, spill);
    WithOtherShape(kept, spill);
    if spill == 0.0 {
      StillSurvive(kept, kept, total, smaller);
    } else if OtherLabel in Keys(kept) {
      StillSurvive(kept, result, total, smaller);
    } else {
      StillSurvive(kept, kept, total, smaller);
      ReconsolidateNewOther(kept, spill, smaller);
    }
  }

  /** Consolidating a consolidated breakdown changes nothing. */
  lemma ConsolidateIdempotent(spending: seq<Entry>)
    requires NonNegative(spending) && DistinctKeys(spending)
    ensures Consolidated(Consolidated(spending)) == Consolidated(spending)
  {
    var total := Sum(spending);
    var kept, spill := Kept(spending, total), Spill(spending, total);
    var result := Consolidated(spending);
    SpillNonNegative(spending, total);
    SpendingAtMostTotal(spending);
    ConsolidatedSum(spending);
    KeptSurvives(spending, total);
    KeptDistinct(spending, total);
    ReconsolidateWithOther(kept, spill, total, Sum(result));
  }

  // ---------------------------------------------------------------------------
  // Worked examples
  // ---------------------------------------------------------------------------

  /** One more input entry: the loop's decision for it, after those for the earlier ones. */
  lemma Step(d: seq<Entry>, e: Entry, total: real)
    ensures Sum(d + [e]) == Sum(d) + e.amount
    ensures Kept(d + [e], total) == Kept(d, total) + if Survives(e, total) then [e] else []
    ensures Spill(d + [e], total) == Spill(d, total) + if Pooled(e, total) then e.amount else 0.0
    ensures Spending(d + [e]) == Spending(d) + if IsIncome(e.category) then [] else [e]
  {
    assert Init(d + [e]) == d && Last(d + [e]) == e;
  }

  /**
   * Rent 1000, Food 900, Misc 20, Income 5000, for any labels of which only
   * the last is income: the total is 6920, so the bar is 207.6; the income
   * entry is dropped and Misc is pooled into a new Other.
   */
  lemma SmallCategoryPooled(rent: string, food: string, misc: string, income: string)
    requires !IsIncome(rent) && !IsIncome(food) && !IsIncome(misc) && IsIncome(income)
    requires rent != OtherLabel && food != OtherLabel
    ensures Consolidated([Entry(rent, 1000.0), Entry(food, 900.0), Entry(misc, 20.0), Entry(income, 5000.0)])
            == [Entry(rent, 1000.0), Entry(food, 900.0), Entry(OtherLabel, 20.0)]
  {
    var r, f, m, i := Entry(rent, 1000.0), Entry(food, 900.0), Entry(misc, 20.0), Entry(income, 5000.0);
    var d := [r, f, m, i];
    var total := 6920.0;
    Step([], r, total);
    assert [] + [r] == [r];
    Step([r], f, total);
    assert [r] + [f] == [r, f];
    Step([r, f], m, total);
    assert [r, f] + [m] == [r, f, m];
    Step([r, f, m], i, total);
    assert [r, f, m] + [i] == d;
    assert Sum(d) == total;
    assert Kept(d, total) == [r, f];
    assert Spill(d, total) == 20.0;
    assert Keys([r, f]) == [rent, food];
    PutNewKey([r, f], OtherLabel, 20.0);
  }

  /**
   * The bar is measured against the total including income: for Rent 1000,
   * Food 100 and Income 5000, Food 100 is below 3% of 6100 (income
   * included) and is pooled, although it is above 3% of the 1100 spent.
   */
  lemma IncomeRaisesTheBar(rent: string, food: string, income: string)
    requires !IsIncome(rent) && !IsIncome(food) && IsIncome(income)
    requires rent != OtherLabel
    ensures var d := [Entry(rent, 1000.0), Entry(food, 100.0), Entry(income, 5000.0)];
            && !BelowShare(100.0, Sum(Spending(d)))
            && Consolidated(d) == [Entry(rent, 1000.0), Entry(OtherLabel, 100.0)]
  {
    var r, f, i := Entry(rent, 1000.0), Entry(food, 100.0), Entry(income, 5000.0);
    var d := [r, f, i];
    var total := 6100.0;
    Step([], r, total);
    assert [] + [r] == [r];
    Step([r], f, total);
    assert [r] + [f] == [r, f];
    Step([r, f], i, total);
    assert [r, f] + [i] == d;
    assert Sum(d) == total;
    assert Spending(d) == [r, f];
    Step([], r, 0.0);
    SumAppend([r], f);
    assert Sum([r, f]) == 1100.0;
    assert Kept(d, total) == [r];
    assert Spill(d, total) == 100.0;
    assert Keys([r]) == [rent];
    PutNewKey([r], OtherLabel, 100.0);
  }
}
