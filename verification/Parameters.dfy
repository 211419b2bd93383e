/** Parameter normalisation: `validate_parameters` of the manifests, and the revalidation of a stored map. */
module Parameters {
  import opened Wrappers
  import Decimal
  import Text

  datatype Contract = Contract(name: string, kind: string, required: bool, fallback: Option<string>,
                               allowed: seq<string>, minimum: Option<int>, maximum: Option<int>)

  // Names to values, as in an ordered map.
  type Values = map<string, string>

  predicate IsRevision(value: string) {
    (|value| == 40 || |value| == 64) && forall c | c in value :: Text.IsLowerHex(c)
  }

  predicate IsIdentifier(value: string) {
    0 < |value| <= 64 &&
    forall c | c in value :: Text.IsLower(c) || Text.IsUpper(c) || Text.IsDigit(c) || c in {'-', '_', '.'}
  }

  predicate InRange(n: int, c: Contract) {
    (c.minimum.Some? ==> n >= c.minimum.value) && (c.maximum.Some? ==> n <= c.maximum.value)
  }

  /** `validate_parameter`. */
  predicate Satisfies(c: Contract, value: string) {
    if c.kind == "git_revision" then IsRevision(value)
    else if c.kind == "enum" then value in c.allowed
    else if c.kind == "integer" then Decimal.ParseI64(value).Some? && InRange(Decimal.ParseI64(value).value, c)
    else c.kind == "identifier" && IsIdentifier(value)
  }

  /** `split_once('=')`: the text before and after the first equals sign. */
  function SplitOnce(item: string): Option<(string, string)> {
    if item == [] then None
    else if item[0] == '=' then Some(([], item[1..]))
    else
      match SplitOnce(item[1..])
      case None => None
      case Some((name, value)) => Some(([item[0]] + name, value))
  }

  function Render(name: string, value: string): string { name + "=" + value }

  lemma {:induction false} SplitOnceMeans(item: string)
    ensures SplitOnce(item).None? <==> '=' !in item
    ensures SplitOnce(item).Some? ==> var (name, value) := SplitOnce(item).value;
      '=' !in name && item == Render(name, value)
  {
    if item != [] && item[0] != '=' {
      SplitOnceMeans(item[1..]);
    }
  }

  lemma {:induction false} SplitOnceOfRender(name: string, value: string)
    requires '=' !in name
    ensures SplitOnce(Render(name, value)) == Some((name, value))
  {
    var item := Render(name, value);
    if name == [] {
      assert item[1..] == value;
    } else {
      SplitOnceOfRender(name[1..], value);
      assert item[1..] == Render(name[1..], value);
      assert name == [name[0]] + name[1..];
    }
  }

  /** The contracts by name; of two with one name the later counts. */
  function ByName(contracts: seq<Contract>): map<string, Contract> {
    if contracts == [] then map[]
    else
      var last := contracts[|contracts| - 1];
      ByName(contracts[..|contracts| - 1])[last.name := last]
  }

  lemma {:induction false} KeyIsName(contracts: seq<Contract>)
    ensures forall name | name in ByName(contracts) :: ByName(contracts)[name].name == name
  {
    if contracts != [] {
      KeyIsName(contracts[..|contracts| - 1]);
    }
  }

  /** The map of the supplied items, or None for a bad, unknown, repeated or unsatisfactory one. */
  function Supply(known: map<string, Contract>, supplied: seq<string>): Option<Values> {
    if supplied == [] then Some(map[])
    else
      match Supply(known, supplied[..|supplied| - 1])
      case None => None
      case Some(values) => Insert(known, values, supplied[|supplied| - 1])
  }

  function Insert(known: map<string, Contract>, values: Values, item: string): Option<Values> {
    match SplitOnce(item)
    case None => None
    case Some((name, value)) =>
      if name in known && name !in values && Satisfies(known[name], value) then Some(values[name := value]) else None
  }

  predicate Missing(known: map<string, Contract>, values: Values, name: string) {
    name in known && name !in values && known[name].fallback.None? && known[name].required
  }

  predicate Defaulted(known: map<string, Contract>, values: Values, name: string) {
    name in known && name !in values && known[name].fallback.Some?
  }

  /** The values with the defaults of the parameters that are not given. */
  function WithDefaults(known: map<string, Contract>, values: Values): Values {
    map name | name in values.Keys + known.Keys && (name in values || Defaulted(known, values, name)) ::
      if name in values then values[name] else known[name].fallback.value
  }

  function Fill(known: map<string, Contract>, values: Values): Option<Values> {
    if exists name | name in known :: Missing(known, values, name) then None else Some(WithDefaults(known, values))
  }

  function Normalised(contracts: seq<Contract>, supplied: seq<string>): Option<Values> {
    match Supply(ByName(contracts), supplied)
    case None => None
    case Some(values) => Fill(ByName(contracts), values)
  }

  // `validate_parameter`, with its loops over the bytes.
  method ValidateParameter(c: Contract, value: string) returns (ok: bool)
    ensures ok <==> Satisfies(c, value)
  {
    hide Text.IsLowerHex, Text.IsLower, Text.IsUpper, Text.IsDigit, Decimal.ParseI64;
    match c.kind
    case "git_revision" =>
      if |value| != 40 && |value| != 64 { return false; }
      ok := OnlyHex(value);
    case "enum" =>
      for k := 0 to |c.allowed|
        invariant value !in c.allowed[..k]
      {
        if c.allowed[k] == value { return true; }
      }
      assert c.allowed[..|c.allowed|] == c.allowed;
      return false;
    case "integer" =>
      var parsed := Decimal.ParseI64(value);
      if parsed.None? { return false; }
      if c.minimum.Some? && parsed.value < c.minimum.value { return false; }
      if c.maximum.Some? && parsed.value > c.maximum.value { return false; }
      return true;
    case "identifier" =>
      if value == "" || |value| > 64 { return false; }
      ok := OnlyIdentifier(value);
    case _ => return false;
  }

  method OnlyHex(value: string) returns (ok: bool)
    ensures ok <==> forall c | c in value :: Text.IsLowerHex(c)
  {
    for k := 0 to |value|
      invariant forall c | c in value[..k] :: Text.IsLowerHex(c)
    {
      assert value[k] in value;
      var b := value[k] as int;
      if !(0x30 <= b <= 0x39 || 0x61 <= b <= 0x66) { return false; }
    }
    assert value[..|value|] == value;
    return true;
  }

  method OnlyIdentifier(value: string) returns (ok: bool)
    ensures ok <==>
      forall c | c in value :: Text.IsLower(c) || Text.IsUpper(c) || Text.IsDigit(c) || c in {'-', '_', '.'}
  {
    for k := 0 to |value|
      invariant forall c | c in value[..k] ::
                  Text.IsLower(c) || Text.IsUpper(c) || Text.IsDigit(c) || c in {'-', '_', '.'}
    {
      assert value[k] in value;
      var b := value[k] as int;
      if !(0x30 <= b <= 0x39 || 0x41 <= b <= 0x5A || 0x61 <= b <= 0x7A || b == 0x2D || b == 0x5F || b == 0x2E) {
        return false;
      }
    }
    assert value[..|value|] == value;
    return true;
  }

  /** `validate_parameters`: the loop over the items and the loop over the contracts. */
  method ValidateParameters(contracts: seq<Contract>, supplied: seq<string>) returns (r: Option<Values>)
    ensures r == Normalised(contracts, supplied)
  {
    hide Satisfies, SplitOnce;
    var known: map<string, Contract> := map[];
    for k := 0 to |contracts|
      invariant known == ByName(contracts[..k])
    {
      assert contracts[..k + 1][..k] == contracts[..k];
      known := known[contracts[k].name := contracts[k]];
    }
    assert contracts[..|contracts|] == contracts;
    var values: Values := map[];
    for k := 0 to |supplied|
      invariant Supply(known, supplied[..k]) == Some(values)
    {
      assert supplied[..k + 1][..k] == supplied[..k];
      var parts := SplitOnce(supplied[k]);
      var valid := false;
      if parts.Some? && parts.value.0 in known { valid := ValidateParameter(known[parts.value.0], parts.value.1); }
      if !valid || parts.value.0 in values {
        assert Supply(known, supplied[..k + 1]).None?;
        SupplyFails(known, supplied, k + 1);
        return None;
      }
      values := values[parts.value.0 := parts.value.1];
    }
    assert supplied[..|supplied|] == supplied;
    r := FillDefaults(known, values, contracts);
  }

  lemma {:induction false} SupplyFails(known: map<string, Contract>, supplied: seq<string>, k: nat)
    requires k <= |supplied| && Supply(known, supplied[..k]).None?
    ensures Supply(known, supplied).None?
    decreases |supplied|
  {
    if k == |supplied| {
      assert supplied[..k] == supplied;
    } else {
      assert supplied[..|supplied| - 1][..k] == supplied[..k];
      SupplyFails(known, supplied[..|supplied| - 1], k);
    }
  }

  // The second loop, over the contracts in any order.
  method FillDefaults(known: map<string, Contract>, given: Values, contracts: seq<Contract>) returns (r: Option<Values>)
    requires known == ByName(contracts)
    ensures r == Fill(known, given)
  {
    KeyIsName(contracts);
    var values := given;
    var rest := known.Keys;
    while rest != {}
      invariant rest <= known.Keys
      invariant values.Keys == given.Keys + set name | name in known.Keys - rest && Defaulted(known, given, name)
      invariant forall name | name in given :: values[name] == given[name]
      invariant forall name | name in values && name !in given :: values[name] == known[name].fallback.value
      invariant forall name | name in known.Keys - rest :: !Missing(known, given, name)
    {
      var name :| name in rest;
      var contract := known[name];
      if contract.name !in values {
        if contract.fallback.Some? {
          values := values[contract.name := contract.fallback.value];
        } else if contract.required {
          assert Missing(known, given, name);
          return None;
        }
      }
      rest := rest - {name};
    }
    assert values == WithDefaults(known, given);
    return Some(values);
  }

  // ----- what the supplied items mean -----

  predicate ItemHolds(known: map<string, Contract>, values: Values, item: string) {
    SplitOnce(item).Some? &&
    var (name, value) := SplitOnce(item).value;
      name in known && Satisfies(known[name], value) && name in values && values[name] == value
  }

  function NameOf(item: string): string {
    match SplitOnce(item) case None => item case Some((name, _)) => name
  }

  /** Each item is NAME=VALUE for a known name and a satisfactory value, no name occurs twice, and the map holds these
      pairs and no others. */
  ghost predicate Supplies(known: map<string, Contract>, supplied: seq<string>, values: Values) {
    && (forall item | item in supplied :: ItemHolds(known, values, item))
    && (forall i, j | 0 <= i < j < |supplied| :: NameOf(supplied[i]) != NameOf(supplied[j]))
    && (forall name | name in values :: exists item :: item in supplied && NameOf(item) == name)
  }

  /** What a list of items yields, whatever their order. */
  lemma SupplyIff(known: map<string, Contract>, supplied: seq<string>, values: Values)
    ensures Supply(known, supplied) == Some(values) <==> Supplies(known, supplied, values)
  {
    hide Supply, Supplies;
    SuppliedMeans(known, supplied);
    if Supplies(known, supplied, values) {
      MeaningIsSupplied(known, supplied, values);
    }
  }

  lemma {:induction false} SuppliedMeans(known: map<string, Contract>, supplied: seq<string>)
    ensures Supply(known, supplied).Some? ==> Supplies(known, supplied, Supply(known, supplied).value)
    decreases |supplied|
  {
    hide Insert, Supplies;
    if supplied == [] {
      NothingSupplied(known);
    } else {
      var n := |supplied| - 1;
      SuppliedMeans(known, supplied[..n]);
      if Supply(known, supplied).Some? {
        assert supplied == supplied[..n] + [supplied[n]];
        ForwardStep(known, supplied[..n], supplied[n], Supply(known, supplied[..n]).value);
      }
    }
  }

  lemma {:induction false} MeaningIsSupplied(known: map<string, Contract>, supplied: seq<string>, values: Values)
    requires Supplies(known, supplied, values)
    ensures Supply(known, supplied) == Some(values)
    decreases |supplied|
  {
    hide Insert, ItemHolds, NameOf;
    if supplied == [] {
      assert values == map[];
    } else {
      var n := |supplied| - 1;
      BackwardStep(known, supplied, values);
      hide Supplies;
      MeaningIsSupplied(known, supplied[..n], values - {NameOf(supplied[n])});
    }
  }

  lemma NothingSupplied(known: map<string, Contract>)
    ensures Supplies(known, [], map[])
  {
  }

  lemma ForwardStep(known: map<string, Contract>, front: seq<string>, last: string, values: Values)
    requires Supplies(known, front, values) && Insert(known, values, last).Some?
    ensures Supplies(known, front + [last], Insert(known, values, last).value)
  {
    hide SplitOnce, Satisfies;
    var all := Insert(known, values, last).value;
    forall name | name in all
      ensures exists item :: item in front + [last] && NameOf(item) == name
    {
      if name == NameOf(last) {
        assert last in front + [last];
      } else {
        var item :| item in front && NameOf(item) == name;
        assert item in front + [last];
      }
    }
    forall i, j | 0 <= i < j < |front + [last]|
      ensures NameOf((front + [last])[i]) != NameOf((front + [last])[j])
    {
      if j == |front| {
        assert front[i] in front;
      }
    }
  }

  lemma BackwardStep(known: map<string, Contract>, supplied: seq<string>, values: Values)
    requires supplied != [] && Supplies(known, supplied, values)
    ensures var n := |supplied| - 1;
      var without := values - {NameOf(supplied[n])};
      Supplies(known, supplied[..n], without) && Insert(known, without, supplied[n]) == Some(values)
  {
    hide SplitOnce, Satisfies;
    var n := |supplied| - 1;
    var last := supplied[n];
    var without := values - {NameOf(last)};
    assert last in supplied && ItemHolds(known, values, last);
    forall item | item in supplied[..n]
      ensures ItemHolds(known, without, item)
    {
      var i :| 0 <= i < n && supplied[i] == item;
      assert supplied[i] in supplied && NameOf(supplied[i]) != NameOf(last);
    }
    forall name | name in without
      ensures exists item :: item in supplied[..n] && NameOf(item) == name
    {
      var item :| item in supplied && NameOf(item) == name;
      var i :| 0 <= i < |supplied| && supplied[i] == item;
      assert i < n && supplied[..n][i] == item;
    }
    assert without[NameOf(last) := values[NameOf(last)]] == values;
  }

  // ----- revalidation -----

  // The names of the map in some order without repetition, as the ordered map lists them.
  ghost predicate Lists(names: seq<string>, values: Values) {
    (forall name :: name in names <==> name in values) &&
    forall i, j | 0 <= i < j < |names| :: names[i] != names[j]
  }

  function RenderAll(names: seq<string>, values: Values): seq<string>
    requires forall name | name in names :: name in values
  {
    seq(|names|, i requires 0 <= i < |names| => Render(names[i], values[names[i]]))
  }

  /** The name can be rendered and its value satisfies its contract. */
  predicate Sturdy(known: map<string, Contract>, values: Values, name: string)
    requires name in values
  {
    '=' !in name && name in known && Satisfies(known[name], values[name])
  }

  lemma RenderedSupplies(known: map<string, Contract>, names: seq<string>, values: Values)
    requires Lists(names, values)
    requires forall name | name in values :: Sturdy(known, values, name)
    ensures Supplies(known, RenderAll(names, values), values)
  {
    hide SplitOnce, Satisfies, Render;
    var items := RenderAll(names, values);
    forall i | 0 <= i < |items|
      ensures SplitOnce(items[i]) == Some((names[i], values[names[i]]))
    {
      assert names[i] in names;
      SplitOnceOfRender(names[i], values[names[i]]);
    }
    forall item | item in items
      ensures ItemHolds(known, values, item)
    {
      var i :| 0 <= i < |items| && items[i] == item;
      assert names[i] in names && Sturdy(known, values, names[i]);
    }
    forall i, j | 0 <= i < j < |items|
      ensures NameOf(items[i]) != NameOf(items[j])
    {
      assert NameOf(items[i]) == names[i] && NameOf(items[j]) == names[j];
    }
    forall name | name in values
      ensures exists item :: item in items && NameOf(item) == name
    {
      var i :| 0 <= i < |names| && names[i] == name;
      assert items[i] in items;
    }
  }

  // Two items with one name.
  lemma NameTwice(known: map<string, Contract>, items: seq<string>, again: Values, j: nat, k: nat)
    requires j < |items| && k < |items| && j != k && NameOf(items[j]) == NameOf(items[k])
    ensures !Supplies(known, items, again)
  {
    hide ItemHolds, NameOf;
  }

  lemma BadItem(known: map<string, Contract>, items: seq<string>, again: Values, k: nat)
    requires k < |items| && !ItemHolds(known, again, items[k])
    ensures !Supplies(known, items, again)
  {
    hide ItemHolds, NameOf;
    assert items[k] in items;
  }

  // An equals sign in a name spoils the map: the text before it would have to name a second item.
  lemma SplitNameCollides(known: map<string, Contract>, names: seq<string>, values: Values, k: nat, again: Values)
    requires Lists(names, values) && k < |names| && '=' in names[k] && again.Keys <= values.Keys
    ensures !Supplies(known, RenderAll(names, values), again)
  {
    hide Supplies, Satisfies;
    var items := RenderAll(names, values);
    assert names[k] in names;
    SplitOnceMeans(names[k]);
    var (first, more) := SplitOnce(names[k]).value;
    hide SplitOnce;
    assert items[k] == Render(first, more + "=" + values[names[k]]);
    hide Render;
    SplitOnceOfRender(first, more + "=" + values[names[k]]);
    if first in values {
      var j :| 0 <= j < |names| && names[j] == first;
      SplitOnceOfRender(first, values[first]);
      NameTwice(known, items, again, j, k);
    } else {
      BadItem(known, items, again, k);
    }
  }

  lemma BadDefaultFails(known: map<string, Contract>, names: seq<string>, values: Values, k: nat, again: Values)
    requires Lists(names, values) && k < |names| && names[k] in values && '=' !in names[k]
    requires names[k] in known && !Satisfies(known[names[k]], values[names[k]])
    ensures !Supplies(known, RenderAll(names, values), again)
  {
    var items := RenderAll(names, values);
    SplitOnceOfRender(names[k], values[names[k]]);
    hide SplitOnce, Satisfies, Render, Supplies;
    BadItem(known, items, again, k);
  }

  /** The defaults that fill the gaps can be rendered and satisfy their own contracts. */
  ghost predicate DefaultsHold(known: map<string, Contract>, given: Values) {
    forall name | Defaulted(known, given, name) ::
      '=' !in name && Satisfies(known[name], known[name].fallback.value)
  }

  lemma SuppliedAreSturdy(known: map<string, Contract>, supplied: seq<string>, given: Values)
    requires Supplies(known, supplied, given)
    ensures forall name | name in given :: Sturdy(known, given, name)
  {
    hide Satisfies, NameOf, ItemHolds, Sturdy;
    forall name | name in given
      ensures Sturdy(known, given, name)
    {
      var item :| item in supplied && NameOf(item) == name;
      ItemIsSturdy(known, given, item);
    }
  }

  lemma ItemIsSturdy(known: map<string, Contract>, given: Values, item: string)
    requires ItemHolds(known, given, item)
    ensures Sturdy(known, given, NameOf(item))
  {
    SplitOnceMeans(item);
  }

  /** Normalisation is a fixed point exactly if the defaults it filled in hold: rendering an accepted map, in any order,
      and normalising it again gives the same map if and only if no filled-in name contains an equals sign and every
      filled-in value satisfies its contract. */
  lemma RevalidatesIff(contracts: seq<Contract>, supplied: seq<string>, names: seq<string>, values: Values)
    requires Normalised(contracts, supplied) == Some(values) && Lists(names, values)
    ensures Normalised(contracts, RenderAll(names, values)) == Some(values) <==>
            DefaultsHold(ByName(contracts), Supply(ByName(contracts), supplied).value)
  {
    hide Satisfies, ByName, Supply, Supplies, RenderAll;
    var known := ByName(contracts);
    var given := Supply(known, supplied).value;
    var items := RenderAll(names, values);
    assert values == WithDefaults(known, given);
    SupplyIff(known, supplied, given);
    if DefaultsHold(known, given) {
      SuppliedAreSturdy(known, supplied, given);
      assert forall name | name in values :: name in given || Defaulted(known, given, name);
      RenderedSupplies(known, names, values);
      SupplyIff(known, items, values);
      FilledStays(known, given, values);
    } else {
      var name :| Defaulted(known, given, name) && !('=' !in name &&
          Satisfies(known[name], known[name].fallback.value));
      assert name in values && values[name] == known[name].fallback.value;
      var k :| 0 <= k < |names| && names[k] == name;
      RevalidationFails(contracts, names, values, k);
    }
  }

  lemma FilledStays(known: map<string, Contract>, given: Values, values: Values)
    requires Fill(known, given) == Some(values)
    ensures Fill(known, values) == Some(values)
  {
    forall name | name in known
      ensures !Missing(known, values, name) && !Defaulted(known, values, name)
    {
      assert !Missing(known, given, name);
    }
    assert WithDefaults(known, values) == values;
  }

  lemma RevalidationFails(contracts: seq<Contract>, names: seq<string>, values: Values, k: nat)
    requires Lists(names, values) && k < |names| && names[k] in values && names[k] in ByName(contracts)
    requires '=' in names[k] || !Satisfies(ByName(contracts)[names[k]], values[names[k]])
    ensures Normalised(contracts, RenderAll(names, values)) != Some(values)
  {
    hide Satisfies, ByName, Supply, Supplies, RenderAll;
    var known, items := ByName(contracts), RenderAll(names, values);
    if Supply(known, items).Some? && Supply(known, items).value.Keys <= values.Keys {
      var again := Supply(known, items).value;
      SupplyIff(known, items, again);
      if '=' in names[k] {
        SplitNameCollides(known, names, values, k, again);
      } else {
        BadDefaultFails(known, names, values, k, again);
      }
    }
  }

  /** What a reload accepts, for any stored map: every name is declared, has no equals sign and a satisfactory value,
      and no parameter that is absent has a default or is required. */
  ghost predicate Reloadable(known: map<string, Contract>, values: Values) {
    && (forall name | name in values :: Sturdy(known, values, name))
    && (forall name | name in known && name !in values :: known[name].fallback.None? && !known[name].required)
  }

  lemma ReloadableIff(contracts: seq<Contract>, names: seq<string>, values: Values)
    requires Lists(names, values)
    ensures Normalised(contracts, RenderAll(names, values)) == Some(values) <==> Reloadable(ByName(contracts), values)
  {
    hide Satisfies, ByName, Supply, Supplies, RenderAll;
    var known, items := ByName(contracts), RenderAll(names, values);
    if Normalised(contracts, items) == Some(values) {
      var again := Supply(known, items).value;
      SupplyIff(known, items, again);
      SuppliedAreSturdy(known, items, again);
      forall name | name in values
        ensures Sturdy(known, values, name)
      {
        var k :| 0 <= k < |names| && names[k] == name;
        if !Sturdy(known, values, name) { RevalidationFails(contracts, names, values, k); }
      }
      forall name | name in known && name !in values
        ensures known[name].fallback.None? && !known[name].required
      {
        assert !Missing(known, again, name) && !Defaulted(known, again, name);
      }
    }
    if Reloadable(known, values) {
      RenderedSupplies(known, names, values);
      SupplyIff(known, items, values);
      assert forall name :: !Missing(known, values, name) && !Defaulted(known, values, name);
      assert WithDefaults(known, values) == values;
    }
  }

  // `format!("{name}={value}")` of every entry.
  method RenderParameters(names: seq<string>, values: Values) returns (items: seq<string>)
    requires forall name | name in names :: name in values
    ensures items == RenderAll(names, values)
  {
    items := [];
    for k := 0 to |names|
      invariant |items| == k && items == RenderAll(names, values)[..k]
    {
      assert names[k] in names;
      items := items + [names[k] + "=" + values[names[k]]];
    }
  }

  /** `validate_parameters` of a stored run or plan: it renders the map, in any order of its names, and normalises it
      again. */
  method Revalidate(contracts: seq<Contract>, names: seq<string>, values: Values) returns (ok: bool)
    requires Lists(names, values)
    ensures ok <==> Reloadable(ByName(contracts), values)
  {
    ReloadableIff(contracts, names, values);
    hide Normalised, Reloadable;
    var items := RenderParameters(names, values);
    var again := ValidateParameters(contracts, items);
    ok := again == Some(values);
  }

  /** If the names that a manifest declares contain no equals sign and its defaults satisfy their own contracts, every
      accepted map revalidates. */
  lemma EveryAcceptedMapRevalidates(contracts: seq<Contract>, supplied: seq<string>, names: seq<string>, values: Values)
    requires Normalised(contracts, supplied) == Some(values) && Lists(names, values)
    requires forall c | c in contracts ::
               '=' !in c.name && (c.fallback.Some? ==> Satisfies(c, c.fallback.value))
    ensures Normalised(contracts, RenderAll(names, values)) == Some(values)
  {
    RevalidatesIff(contracts, supplied, names, values);
    KeyIsName(contracts);
    hide Satisfies, Supply, Normalised, RenderAll;
    KnownAreDeclared(contracts);
  }

  lemma {:induction false} KnownAreDeclared(contracts: seq<Contract>)
    ensures forall name | name in ByName(contracts) :: ByName(contracts)[name] in contracts
  {
    if contracts != [] {
      KnownAreDeclared(contracts[..|contracts| - 1]);
    }
  }

  /** A default that its own contract refuses is recorded by the first validation and refused by the second. */
  lemma BadDefaultIsRecorded()
    ensures var contracts := [Contract("n", "integer", false, Some("x"), [], None, None)];
      && Normalised(contracts, []) == Some(map["n" := "x"])
      && Normalised(contracts, ["n=x"]) == None
  {
    var c := Contract("n", "integer", false, Some("x"), [], None, None);
    var known := ByName([c]);
    assert [c][..0] == [] && ByName([]) == map[];
    assert known == map["n" := c];
    assert WithDefaults(known, map[]) == map["n" := "x"];
    assert SplitOnce("n=x") == Some(("n", "x")) by {
      SplitOnceOfRender("n", "x");
      assert Render("n", "x") == "n=x";
    }
    assert ["n=x"][..0] == [];
    assert !Satisfies(c, "x");
  }
}
