/**
 * The master-data catalog and `_find_master_id`. The catalog maps a category
 * ("gender", "country", "state", ...) to its values in catalog order; each value
 * holds the text `str()` gives of its `id` and of its `name`.
 */
module MasterData {
  import opened PyStr
  import opened PyJson

  datatype MasterValue = MasterValue(id: string, name: string)

  type Catalog = map<string, seq<MasterValue>>

  /** The id every failed lookup answers. */
  const DefaultId := "1"

  /** An entry matches when its stripped, lower-cased name contains the needle. */
  predicate Matches(needle: string, v: MasterValue)
  {
    Contains(Lower(Strip(v.name)), needle)
  }

  /** The index of the first matching entry at or after `from`, or -1. */
  function FirstMatchFrom(vs: seq<MasterValue>, needle: string, from: nat): (r: int)
    ensures r == -1 || (from <= r < |vs| && Matches(needle, vs[r]))
    ensures forall i {:trigger Matches(needle, vs[i])} :: from <= i < |vs| && (r < 0 || i < r) ==> !Matches(needle, vs[i])
    decreases |vs| - from
  {
    if from >= |vs| then -1
    else if Matches(needle, vs[from]) then from
    else FirstMatchFrom(vs, needle, from + 1)
  }

  /** The index of the first matching entry, or -1. */
  function FirstMatch(vs: seq<MasterValue>, needle: string): (r: int)
    ensures -1 <= r < |vs|
    ensures r >= 0 ==> Matches(needle, vs[r])
    ensures r >= 0 ==> forall i :: 0 <= i < r ==> !Matches(needle, vs[i])
    ensures r == -1 <==> forall i :: 0 <= i < |vs| ==> !Matches(needle, vs[i])
  {
    FirstMatchFrom(vs, needle, 0)
  }

  /** The first entry that matches is the one `FirstMatch` finds. */
  lemma FirstMatchIs(vs: seq<MasterValue>, needle: string, i: nat)
    requires i < |vs| && Matches(needle, vs[i])
    requires forall j :: 0 <= j < i ==> !Matches(needle, vs[j])
    ensures FirstMatch(vs, needle) == i
  {
  }

  /** The text the lookup searches for: the stripped `str()` of the value. */
  function Needle(value: Json): string
  {
    Strip(Str(value))
  }

  /** `_find_master_id(category, value)` */
  function FindMasterId(catalog: Catalog, category: string, value: Json): (r: string)
    ensures !Truthy(value) || category !in catalog || Needle(value) == "" ==> r == DefaultId
    ensures r == DefaultId || (category in catalog && exists i :: 0 <= i < |catalog[category]| && catalog[category][i].id == r)
  {
    if !Truthy(value) || category !in catalog then DefaultId
    else
      var needle := Needle(value);
      if needle == "" then DefaultId
      else
        var k := FirstMatch(catalog[category], Lower(needle));
        if k < 0 then DefaultId else catalog[category][k].id
  }

  /** A searchable value gets the id of the first entry, in catalog order, whose
      name contains it regardless of case. */
  lemma FindMasterIdFirstMatch(catalog: Catalog, category: string, value: Json, i: nat)
    requires Truthy(value) && category in catalog && Needle(value) != ""
    requires i < |catalog[category]| && Matches(Lower(Needle(value)), catalog[category][i])
    requires forall j :: 0 <= j < i ==> !Matches(Lower(Needle(value)), catalog[category][j])
    ensures FindMasterId(catalog, category, value) == catalog[category][i].id
  {
    FirstMatchIs(catalog[category], Lower(Needle(value)), i);
  }

  /** When no entry's name contains the value, the default id comes back. */
  lemma FindMasterIdNoMatch(catalog: Catalog, category: string, value: Json)
    requires category in catalog
    requires forall j :: 0 <= j < |catalog[category]| ==> !Matches(Lower(Needle(value)), catalog[category][j])
    ensures FindMasterId(catalog, category, value) == DefaultId
  {
  }

  /** A value that is only whitespace is not searched for. */
  lemma FindMasterIdBlank(catalog: Catalog, category: string, s: string)
    requires forall i :: 0 <= i < |s| ==> IsSpace(s[i])
    ensures FindMasterId(catalog, category, JStr(s)) == DefaultId
  {
  }

  /** The case of the value does not matter. */
  lemma FindMasterIdCaseBlind(catalog: Catalog, category: string, s: string)
    ensures FindMasterId(catalog, category, JStr(Lower(s))) == FindMasterId(catalog, category, JStr(s))
  {
    var lowered, given := Needle(JStr(Lower(s))), Needle(JStr(s));
    assert lowered == Lower(given) by {
      assert Str(JStr(Lower(s))) == Lower(s);
      assert Str(JStr(s)) == s;
      StripLower(s);
    }
    assert Lower(lowered) == Lower(given) by {
      LowerIdempotent(given);
    }
    assert Truthy(JStr(Lower(s))) == Truthy(JStr(s));
  }
}
