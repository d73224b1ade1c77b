/**
 * Category labels of the spending breakdown and the case-insensitive
 * "income" test applied to them before any chart decision.
 * Labels are ASCII strings; lower-casing maps 'A'..'Z' to 'a'..'z' and
 * leaves every other character alone.
 */
module Labels {

  /** The marker whose presence, in any letter case, excludes a category. */
  const IncomeMarker: string := "income"

  /** The bucket that collects the categories below the share threshold. */
  const OtherLabel: string := "Other"

  function LowerChar(c: char): (l: char)
    ensures 'A' <= c <= 'Z' ==> 'a' <= l <= 'z' && l as int - c as int == 'a' as int - 'A' as int
    ensures !('A' <= c <= 'Z') ==> l == c
  {
    if 'A' <= c <= 'Z' then (c as int - 'A' as int + 'a' as int) as char else c
  }

  /** ASCII `toLowerCase`. */
  function ToLower(s: string): string
  {
    if s == [] then [] else [LowerChar(s[0])] + ToLower(s[1..])
  }

  /** Lower-casing keeps the length and maps every character on its own. */
  lemma {:induction false} ToLowerPointwise(s: string)
    ensures |ToLower(s)| == |s|
    ensures forall i :: 0 <= i < |s| ==> ToLower(s)[i] == LowerChar(s[i])
  {
    if s != [] {
      ToLowerPointwise(s[1..]);
    }
  }

  /** `s.includes(sub)`: `sub` occurs in `s` at some position. */
  function Contains(s: string, sub: string): (b: bool)
    decreases |s|
  {
    if |sub| > |s| then false
    else if s[..|sub|] == sub then true
    else Contains(s[1..], sub)
  }

  /** `sub` occurs in `s` starting at index `i`. */
  predicate OccursAt(s: string, sub: string, i: int)
  {
    0 <= i <= |s| - |sub| && s[i..i + |sub|] == sub
  }

  /** A slice of `s` away from its head is the same slice of its tail, one position earlier. */
  lemma TailSlice(s: string, i: nat, n: nat)
    requires 1 <= i && i + n <= |s|
    ensures s[i..i + n] == s[1..][i - 1..i - 1 + n]
  {
    var a, b := s[i..i + n], s[1..][i - 1..i - 1 + n];
    forall k | 0 <= k < n
      ensures a[k] == b[k]
    {
      assert a[k] == s[i + k];
      assert b[k] == s[1..][i - 1 + k];
    }
  }

  /** `Contains` holds exactly when `sub` occurs at some index of `s`. */
  lemma {:induction false} ContainsIffOccurs(s: string, sub: string)
    ensures Contains(s, sub) <==> exists i :: OccursAt(s, sub, i)
    decreases |s|
  {
    if |sub| > |s| {
    } else if s[..|sub|] == sub {
      assert OccursAt(s, sub, 0);
    } else {
      ContainsIffOccurs(s[1..], sub);
      if Contains(s[1..], sub) {
        var i :| OccursAt(s[1..], sub, i);
        TailSlice(s, i + 1, |sub|);
        assert OccursAt(s, sub, i + 1);
      } else {
        forall i | 1 <= i <= |s| - |sub|
          ensures !OccursAt(s, sub, i)
        {
          assert !OccursAt(s[1..], sub, i - 1);
          TailSlice(s, i, |sub|);
        }
        assert !OccursAt(s, sub, 0);
      }
    }
  }

  /** `category.toLowerCase().includes('income')` */
  predicate IsIncome(category: string)
  {
    Contains(ToLower(category), IncomeMarker)
  }

  /** A label shorter than the marker cannot contain it. */
  lemma ShortIsNotIncome(category: string)
    requires |category| < |IncomeMarker|
    ensures !IsIncome(category)
  {
    ToLowerPointwise(category);
  }

  /** The label under which small categories are pooled is never itself excluded. */
  lemma OtherIsNotIncome()
    ensures !IsIncome(OtherLabel)
  {
    ShortIsNotIncome(OtherLabel);
  }

  /** Every letter-case variant of "income" inside a label excludes it. */
  lemma {:induction false} IncomeAnyCase(prefix: string, marker: string, suffix: string)
    requires ToLower(marker) == IncomeMarker
    ensures IsIncome(prefix + marker + suffix)
  {
    var s := prefix + marker + suffix;
    var l := ToLower(s);
    ToLowerPointwise(s);
    ToLowerPointwise(marker);
    assert l[|prefix|..|prefix| + 6] == IncomeMarker by {
      forall k | 0 <= k < 6
        ensures l[|prefix| + k] == IncomeMarker[k]
      {
        assert s[|prefix| + k] == marker[k];
        assert ToLower(marker)[k] == LowerChar(marker[k]);
      }
    }
    assert OccursAt(l, IncomeMarker, |prefix|);
    ContainsIffOccurs(l, IncomeMarker);
  }
}
