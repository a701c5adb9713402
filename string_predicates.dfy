/** The four case-insensitive text predicates. Each first checks for a
    `None` field, then compares lower-cased `str()` renderings. */
module StringPredicates {
  import Text
  import opened Values

  const ContainsName: string := "contains"
  const DoesNotContainName: string := "does_not_contain"
  const EqualsName: string := "equals"
  const DoesNotEqualName: string := "does_not_equal"

  /** `str(rule_value).lower() in str(field_value).lower()`; false for a
      `None` field. */
  function Contains(field: FieldValue, value: RuleValue): (r: bool)
    ensures field.FNull? ==> !r
    ensures !field.FNull? ==>
      (r <==> exists i :: Text.OccursAt(Text.Lower(RuleText(value)), Text.Lower(FieldText(field)), i))
  {
    if field.FNull? then false
    else
      Text.IsSubstringIff(Text.Lower(RuleText(value)), Text.Lower(FieldText(field)));
      Text.IsSubstring(Text.Lower(RuleText(value)), Text.Lower(FieldText(field)))
  }

  /** The `not in` test; true for a `None` field. */
  function DoesNotContain(field: FieldValue, value: RuleValue): (r: bool)
    ensures field.FNull? ==> r
    ensures !field.FNull? ==> r == !Contains(field, value)
  {
    if field.FNull? then true
    else !Text.IsSubstring(Text.Lower(RuleText(value)), Text.Lower(FieldText(field)))
  }

  /** Two texts that agree letter for letter once case is ignored: the same
      length, and at each position characters with the same lower-case
      form. */
  predicate SameIgnoringCase(a: string, b: string) {
    |a| == |b| && forall i :: 0 <= i < |a| ==> Text.LowerChar(a[i]) == Text.LowerChar(b[i])
  }

  /** Lower-cased equality; a `None` field equals only a `None` value, and
      otherwise the renderings must agree position by position up to
      case. */
  function Equals(field: FieldValue, value: RuleValue): (r: bool)
    ensures field.FNull? ==> (r <==> value.RNull?)
    ensures !field.FNull? ==> (r <==> SameIgnoringCase(FieldText(field), RuleText(value)))
    ensures !field.FNull? && FieldText(field) == RuleText(value) ==> r
  {
    if field.FNull? then value.RNull?
    else Text.Lower(FieldText(field)) == Text.Lower(RuleText(value))
  }

  /** Lower-cased inequality; a `None` field differs from every value but
      `None`. It is the negation of `Equals` on every input. */
  function DoesNotEqual(field: FieldValue, value: RuleValue): (r: bool)
    ensures field.FNull? ==> (r <==> !value.RNull?)
    ensures r == !Equals(field, value)
  {
    if field.FNull? then !value.RNull?
    else Text.Lower(FieldText(field)) != Text.Lower(RuleText(value))
  }

  /** A text that equals the rule value also contains it. */
  lemma EqualsImpliesContains(field: FieldValue, value: RuleValue)
    requires !field.FNull? && Equals(field, value)
    ensures Contains(field, value)
  {
    Text.SubstringOfItself(Text.Lower(FieldText(field)));
  }

  /** Texts that agree after lower-casing are interchangeable: none of the
      four results changes. */
  lemma IgnoresCase(f1: string, f2: string, v1: string, v2: string)
    requires Text.Lower(f1) == Text.Lower(f2) && Text.Lower(v1) == Text.Lower(v2)
    ensures Contains(FText(f1), RText(v1)) == Contains(FText(f2), RText(v2))
    ensures DoesNotContain(FText(f1), RText(v1)) == DoesNotContain(FText(f2), RText(v2))
    ensures Equals(FText(f1), RText(v1)) == Equals(FText(f2), RText(v2))
    ensures DoesNotEqual(FText(f1), RText(v1)) == DoesNotEqual(FText(f2), RText(v2))
  {
  }

  /** Equality of texts does not depend on which side is the field. */
  lemma EqualsSymmetric(a: string, b: string)
    ensures Equals(FText(a), RText(b)) == Equals(FText(b), RText(a))
  {
    assert SameIgnoringCase(a, b) == SameIgnoringCase(b, a);
  }

  /** A text equals its upper-cased and its lower-cased spelling. */
  lemma EqualsAnyCase(s: string)
    ensures Equals(FText(s), RText(Text.Upper(s)))
    ensures Equals(FText(Text.Upper(s)), RText(Text.Lower(s)))
  {
    Text.LowerForgetsCase(s);
  }
}
