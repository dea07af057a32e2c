/**
 * The fixed client-side catalogs of the creation form: credit sub-types, each
 * with a selector value, a display label and the integer index used as the
 * profit multiplier; and the two debit sub-types.
 */
module CreditCatalog {
  import opened Wrappers
  import Decimal

  datatype CreditType = CreditType(value: string, display: string, index: int)

  datatype DebitType = DebitType(value: string, display: string)

  const Weekly: CreditType := CreditType("161", "Weekly", 161)
  const Monthly: CreditType := CreditType("800", "Monthly", 800)
  const Diamonds115: CreditType := CreditType("80", "115💎", 80)
  const Diamonds240: CreditType := CreditType("160", "240💎", 160)
  const Diamonds355: CreditType := CreditType("240", "355💎", 240)
  const Diamonds480: CreditType := CreditType("320", "480💎", 320)
  const Diamonds610: CreditType := CreditType("405", "610💎", 405)
  const Diamonds725: CreditType := CreditType("485", "725💎", 485)
  const Diamonds850: CreditType := CreditType("565", "850💎", 565)
  const Diamonds965: CreditType := CreditType("645", "965💎", 645)
  const Diamonds1090: CreditType := CreditType("725", "1090💎", 725)
  const Diamonds1240: CreditType := CreditType("810", "1240💎", 810)
  const Diamonds1480: CreditType := CreditType("970", "1480💎", 970)
  const Diamonds1595: CreditType := CreditType("1050", "1595💎", 1050)
  const Diamonds1720: CreditType := CreditType("1130", "1720💎", 1130)
  const Diamonds1960: CreditType := CreditType("1290", "1960💎", 1290)
  const Diamonds2090: CreditType := CreditType("1375", "2090💎", 1375)
  const Diamonds2530: CreditType := CreditType("1625", "2530💎", 1625)
  const Diamonds5060: CreditType := CreditType("3250", "5060💎", 3250)

  /** `creditTypes`, in the order the selector lists them. */
  const CreditTypes: seq<CreditType> := [
    Weekly, Monthly, Diamonds115, Diamonds240, Diamonds355,
    Diamonds480, Diamonds610, Diamonds725, Diamonds850, Diamonds965,
    Diamonds1090, Diamonds1240, Diamonds1480, Diamonds1595, Diamonds1720,
    Diamonds1960, Diamonds2090, Diamonds2530, Diamonds5060
  ]

  const DebitTypes: seq<DebitType> := [
    DebitType("esewa", "eSewa"),
    DebitType("bank", "Bank")
  ]

  /** `cs.find(ct => ct.value === value)`: the first entry carrying `value`, if any. */
  function FindByValue(cs: seq<CreditType>, value: string): (r: Option<CreditType>)
    ensures r.None? <==> forall i :: 0 <= i < |cs| ==> cs[i].value != value
    ensures r.Some? ==> exists i :: 0 <= i < |cs| && cs[i] == r.value && r.value.value == value
                                   && forall j :: 0 <= j < i ==> cs[j].value != value
  {
    if cs == [] then None
    else if cs[0].value == value then Some(cs[0])
    else
      var r := FindByValue(cs[1..], value);
      assert r.Some? ==> exists i :: 1 <= i < |cs| && cs[i] == r.value && r.value.value == value
                                    && forall j :: 0 <= j < i ==> cs[j].value != value by {
        if r.Some? {
          var k :| 0 <= k < |cs| - 1 && cs[1..][k] == r.value && r.value.value == value
                   && forall j :: 0 <= j < k ==> cs[1..][j].value != value;
          assert forall j :: 1 <= j < k + 1 ==> cs[j] == cs[1..][j - 1];
        }
      }
      r
  }

  /** The credit-type selection handler's lookup. */
  function FindCreditType(value: string): (r: Option<CreditType>)
    ensures r.None? <==> forall i :: 0 <= i < |CreditTypes| ==> CreditTypes[i].value != value
    ensures r.Some? ==> r.value in CreditTypes && r.value.value == value
  {
    FindByValue(CreditTypes, value)
  }

  /** Every entry of `cs` is well formed. */
  predicate AllWellFormed(cs: seq<CreditType>) {
    forall i :: 0 <= i < |cs| ==> WellFormed(cs[i])
  }

  /** The entry has a label and a positive index, and its selector value is that index in decimal. */
  predicate WellFormed(ct: CreditType) {
    ct.display != "" && ct.index > 0 && ct.value == Decimal.NatToString(ct.index)
  }

  /** Every catalog entry has a label to show. */
  lemma EntryLabelled(i: nat)
    requires i < |CreditTypes|
    ensures CreditTypes[i].display != ""
  {
    CatalogWellFormed();
  }

  /** Entries 0 to 9 of the catalog are well formed. */
  lemma EntriesWellFormed0To9()
    ensures WellFormed(Weekly) &&
      WellFormed(Monthly) &&
      WellFormed(Diamonds115) &&
      WellFormed(Diamonds240) &&
      WellFormed(Diamonds355) &&
      WellFormed(Diamonds480) &&
      WellFormed(Diamonds610) &&
      WellFormed(Diamonds725) &&
      WellFormed(Diamonds850) &&
      WellFormed(Diamonds965)
  {
  }

  /** Entries 10 to 18 of the catalog are well formed. */
  lemma EntriesWellFormed10To18()
    ensures WellFormed(Diamonds1090) &&
      WellFormed(Diamonds1240) &&
      WellFormed(Diamonds1480) &&
      WellFormed(Diamonds1595) &&
      WellFormed(Diamonds1720) &&
      WellFormed(Diamonds1960) &&
      WellFormed(Diamonds2090) &&
      WellFormed(Diamonds2530) &&
      WellFormed(Diamonds5060)
  {
  }

  /** Every credit entry has a label and a positive index, and its selector value is that index in decimal. */
  lemma CatalogWellFormed()
    ensures AllWellFormed(CreditTypes)
  {
    EntriesWellFormed0To9();
    EntriesWellFormed10To18();
  }

  /** No two credit entries share an index. */
  lemma CatalogIndicesDistinct()
    ensures forall i, j :: 0 <= i < j < |CreditTypes| ==> CreditTypes[i].index != CreditTypes[j].index
  {
  }

  /** No two credit entries share a selector value, so looking up by value is unambiguous. */
  lemma CatalogValuesDistinct()
    ensures forall i, j :: 0 <= i < j < |CreditTypes| ==> CreditTypes[i].value != CreditTypes[j].value
  {
    CatalogWellFormed();
    CatalogIndicesDistinct();
    forall i, j | 0 <= i < j < |CreditTypes|
      ensures CreditTypes[i].value != CreditTypes[j].value
    {
      assert CreditTypes[i].index > 0 && CreditTypes[j].index > 0;
      if CreditTypes[i].value == CreditTypes[j].value {
        Decimal.RenderingInjective(CreditTypes[i].index, CreditTypes[j].index);
      }
    }
  }

  /** Looking up an entry's own value finds that entry. */
  lemma FindCreditTypeOfEntry(i: nat)
    requires i < |CreditTypes|
    ensures FindCreditType(CreditTypes[i].value) == Some(CreditTypes[i])
  {
    CatalogValuesDistinct();
  }
}
