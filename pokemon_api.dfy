/** The data client of the catalog (src/lib/pokemon-api.ts): the records the
    remote API returns, the request wrappers (the network itself is an oracle
    keyed by request URL), extracting an id from a resource URL, the colour of
    a type badge, the human-readable description of an evolution condition,
    and the resolution of a raw evolution chain into a tree of fetched
    records. */
module PokemonApi {
  import opened Wrappers
  import opened Strings

  // ---------------------------------------------------------------- records

  datatype NamedResource = NamedResource(name: string, url: string)

  datatype Stat = Stat(baseStat: int, name: string)

  /** One catalog entry. The sprite URLs are presentation only and are not
      part of the model; types and abilities are given by their names. */
  datatype Pokemon = Pokemon(
    id: int,
    name: string,
    url: string,
    types: seq<string>,
    stats: seq<Stat>,
    height: int,
    weight: int,
    abilities: seq<string>)

  /** One page of summaries; `next` is the URL of the following page, or
      null. */
  datatype ListResponse = ListResponse(
    count: int,
    next: Option<string>,
    previous: Option<string>,
    results: seq<NamedResource>)

  datatype Species = Species(id: int, name: string, evolutionChainUrl: string)

  /** A JSON number field as the source can read it: missing (`undefined`),
      `null`, or a number. */
  datatype JsonNumber = Undefined | Null | Number(value: int)

  /** The conditions gating one evolution. Every field is optional; the
      fields that are objects with a `name` in the API are given by that
      name. For every field but `relativePhysicalStats`, `None` stands for
      both a missing and a `null` field, which the source's truthiness tests
      treat alike. */
  datatype EvolutionDetail = EvolutionDetail(
    trigger: Option<string>,
    minLevel: Option<int>,
    item: Option<string>,
    heldItem: Option<string>,
    timeOfDay: Option<string>,
    location: Option<string>,
    minHappiness: Option<int>,
    minBeauty: Option<int>,
    minAffection: Option<int>,
    relativePhysicalStats: JsonNumber,
    partySpecies: Option<string>,
    partyType: Option<string>,
    tradeSpecies: Option<string>,
    needsOverworldRain: Option<bool>,
    turnUpsideDown: Option<bool>)

  /** A node of the raw evolution chain: a species reference, the conditions
      of the edge leading into it, and the species it evolves into. */
  datatype ChainLink = ChainLink(
    isBaby: bool,
    species: NamedResource,
    evolutionDetails: seq<EvolutionDetail>,
    evolvesTo: seq<ChainLink>)

  datatype EvolutionChain = EvolutionChain(id: int, chain: ChainLink)

  /** A node of the resolved tree: the fetched record in place of the species
      reference. */
  datatype EvolutionNode = EvolutionNode(
    pokemon: Pokemon,
    evolutionDetails: seq<EvolutionDetail>,
    evolvesTo: seq<EvolutionNode>)

  /** The remote API: for each kind of resource, what a GET of a URL yields,
      `None` when the response is not ok. */
  datatype Remote = Remote(
    pokemonAt: string -> Option<Pokemon>,
    speciesAt: string -> Option<Species>,
    chainAt: string -> Option<EvolutionChain>,
    listAt: string -> Option<ListResponse>)

  // ------------------------------------------------------- request wrappers

  const BaseUrl: string := "https://pokeapi.co/api/v2"

  function PokemonUrl(nameOrId: string): string {
    BaseUrl + "/pokemon/" + nameOrId
  }

  function SpeciesUrl(nameOrId: string): string {
    BaseUrl + "/pokemon-species/" + nameOrId
  }

  function ListUrl(limit: nat, offset: nat): string {
    BaseUrl + "/pokemon?limit=" + NatToString(limit) + "&offset=" + NatToString(offset)
  }

  function Fetched<T>(response: Option<T>, failure: string): Result<T> {
    match response
    case Some(v) => Ok(v)
    case None => Err(failure)
  }

  function GetPokemonList(remote: Remote, limit: nat, offset: nat): Result<ListResponse> {
    Fetched(remote.listAt(ListUrl(limit, offset)), "Failed to fetch Pokemon list")
  }

  function GetPokemon(remote: Remote, nameOrId: string): Result<Pokemon> {
    Fetched(remote.pokemonAt(PokemonUrl(nameOrId)), "Failed to fetch Pokemon")
  }

  function GetPokemonByUrl(remote: Remote, url: string): Result<Pokemon> {
    Fetched(remote.pokemonAt(url), "Failed to fetch Pokemon")
  }

  function GetPokemonSpecies(remote: Remote, nameOrId: string): Result<Species> {
    Fetched(remote.speciesAt(SpeciesUrl(nameOrId)), "Failed to fetch Pokemon species")
  }

  function GetEvolutionChain(remote: Remote, url: string): Result<EvolutionChain> {
    Fetched(remote.chainAt(url), "Failed to fetch evolution chain")
  }

  // ------------------------------------------------------ id from a URL

  const PokemonSegment: string := "/pokemon/"

  /** The regular expression `/\/pokemon\/(\d+)\//` matches `url` at
      position `i`, capturing `ds`. */
  ghost predicate PatternAt(url: string, i: int, ds: string) {
    0 <= i && i + |PokemonSegment| + |ds| < |url|
    && url[i..i + |PokemonSegment|] == PokemonSegment
    && |ds| > 0 && AllDigits(ds)
    && url[i + |PokemonSegment|..i + |PokemonSegment| + |ds|] == ds
    && url[i + |PokemonSegment| + |ds|] == '/'
  }

  /** The length of the run of decimal digits that starts at `i`. */
  function DigitRun(s: string, i: nat): (k: nat)
    requires i <= |s|
    ensures i + k <= |s|
    ensures forall j :: i <= j < i + k ==> IsDigit(s[j])
    ensures i + k < |s| ==> !IsDigit(s[i + k])
    decreases |s| - i
  {
    if i < |s| && IsDigit(s[i]) then 1 + DigitRun(s, i + 1) else 0
  }

  /** The captured digits when the pattern matches at `i`. */
  function MatchAt(url: string, i: nat): (m: Option<string>)
    requires i <= |url|
    ensures m.Some? ==> |m.value| > 0 && AllDigits(m.value)
  {
    var start := i + |PokemonSegment|;
    if start <= |url| && url[i..start] == PokemonSegment then
      var k := DigitRun(url, start);
      if k > 0 && start + k < |url| && url[start + k] == '/' then Some(url[start..start + k])
      else None
    else None
  }

  /** At any position the scanner's answer is the regular expression's. */
  lemma MatchAtIsPattern(url: string, i: nat)
    requires i <= |url|
    ensures MatchAt(url, i).Some? ==> PatternAt(url, i, MatchAt(url, i).value)
    ensures forall ds :: PatternAt(url, i, ds) ==> MatchAt(url, i) == Some(ds)
  {
  }

  /** The leftmost match at or after `from`, as `String.match` finds it. */
  function FindFrom(url: string, from: nat): (m: Option<string>)
    requires from <= |url|
    ensures m.Some? ==> |m.value| > 0 && AllDigits(m.value)
    decreases |url| - from
  {
    if from == |url| then None
    else match MatchAt(url, from)
      case Some(ds) => Some(ds)
      case None => FindFrom(url, from + 1)
  }

  lemma {:induction false} FindFromIsLeftmost(url: string, from: nat)
    requires from <= |url|
    ensures FindFrom(url, from).Some? ==>
              exists i :: from <= i < |url| && PatternAt(url, i, FindFrom(url, from).value)
                          && forall j, ds :: from <= j < i ==> !PatternAt(url, j, ds)
    ensures FindFrom(url, from).None? ==> forall j, ds :: from <= j ==> !PatternAt(url, j, ds)
    decreases |url| - from
  {
    if from < |url| {
      MatchAtIsPattern(url, from);
      if MatchAt(url, from).None? {
        FindFromIsLeftmost(url, from + 1);
      }
    }
  }

  /** `getPokemonIdFromUrl`: the decimal value of the digits between the
      first `/pokemon/` that is followed by digits and a `/`, and that `/`;
      0 when there is no such place. */
  function GetPokemonIdFromUrl(url: string): (id: nat) {
    match FindFrom(url, 0)
    case Some(ds) => ParseDecimal(ds)
    case None => 0
  }

  /** The id is 0 when nothing matches, and otherwise the value of the
      leftmost match's digits. */
  lemma IdFromUrlSpec(url: string)
    ensures (forall i, ds :: !PatternAt(url, i, ds)) ==> GetPokemonIdFromUrl(url) == 0
    ensures forall i, ds :: PatternAt(url, i, ds) && (forall j, ds' :: 0 <= j < i ==> !PatternAt(url, j, ds'))
                            ==> GetPokemonIdFromUrl(url) == ParseDecimal(ds)
  {
    FindFromIsLeftmost(url, 0);
    forall i, ds | PatternAt(url, i, ds) && (forall j, ds' :: 0 <= j < i ==> !PatternAt(url, j, ds'))
      ensures GetPokemonIdFromUrl(url) == ParseDecimal(ds)
    {
      var found := FindFrom(url, 0);
      assert found.Some?;
      var i' :| 0 <= i' < |url| && PatternAt(url, i', found.value)
                && forall j, ds' :: 0 <= j < i' ==> !PatternAt(url, j, ds');
      assert i' == i;
      MatchAtIsPattern(url, i);
    }
  }

  /** The resource URL the API hands out for a record, with its trailing
      slash, yields the record's id back. */
  lemma IdFromResourceUrl(n: nat)
    ensures GetPokemonIdFromUrl(PokemonUrl(NatToString(n)) + "/") == n
  {
    var ds := NatToString(n);
    var url := PokemonUrl(ds) + "/";
    var head := BaseUrl + PokemonSegment;
    assert url == head + ds + "/";
    assert |BaseUrl| == 25;
    assert url[..|head|] == head;
    forall j, ds' | 0 <= j < 25 ensures !PatternAt(url, j, ds') {
      if PatternAt(url, j, ds') {
        assert url[j..j + 9] == head[j..j + 9];
        NoSegmentInBase(j);
      }
    }
    assert url[25 + 9..25 + 9 + |ds|] == ds;
    assert PatternAt(url, 25, ds);
    IdFromUrlSpec(url);
    ParseNatToString(n);
  }

  /** `/pokemon/` first occurs in `BaseUrl + "/pokemon/"` at its end. */
  lemma NoSegmentInBase(j: nat)
    requires j < 25
    ensures (BaseUrl + PokemonSegment)[j..j + 9] != PokemonSegment
  {
    var head := BaseUrl + PokemonSegment;
    assert head[..30] == "https://pokeapi.co/api/v2/poke";
    assert head[j + 5] == head[..30][j + 5];
  }

  // ------------------------------------------------------- type colours

  const DefaultColor: string := "bg-gray-400"

  const TypeColors: map<string, string> := map[
    "normal" := "bg-gray-400",
    "fire" := "bg-red-500",
    "water" := "bg-blue-500",
    "electric" := "bg-yellow-400",
    "grass" := "bg-green-500",
    "ice" := "bg-blue-200",
    "fighting" := "bg-red-700",
    "poison" := "bg-purple-500",
    "ground" := "bg-yellow-600",
    "flying" := "bg-indigo-400",
    "psychic" := "bg-pink-500",
    "bug" := "bg-green-400",
    "rock" := "bg-yellow-800",
    "ghost" := "bg-purple-700",
    "dragon" := "bg-indigo-700",
    "dark" := "bg-gray-800",
    "steel" := "bg-gray-500",
    "fairy" := "bg-pink-300"
  ]

  /** `getTypeColor`: the table's colour for a known type, the default
      colour otherwise; either way a colour of the palette, and an unknown
      type looks like "normal". */
  function GetTypeColor(t: string): (c: string)
    ensures c in TypeColors.Values
    ensures t in TypeColors ==> c == TypeColors[t]
    ensures t !in TypeColors ==> c == TypeColors["normal"]
  {
    assert TypeColors["normal"] == DefaultColor;
    if t in TypeColors && TypeColors[t] != "" then TypeColors[t] else DefaultColor
  }

  // ------------------------------------------- evolution condition phrases

  /** JavaScript truthiness of an optional number: present and not 0. */
  predicate TruthyNumber(o: Option<int>) {
    o.Some? && o.value != 0
  }

  /** JavaScript truthiness of an optional string: present and not empty. */
  predicate TruthyString(o: Option<string>) {
    o.Some? && o.value != ""
  }

  /** The phrase for the comparison of Attack and Defense, by sign. */
  function StatsPhrase(v: int): (p: string)
    ensures v > 0 ==> p == "when Attack > Defense"
    ensures v < 0 ==> p == "when Defense > Attack"
    ensures v == 0 ==> p == "when Attack = Defense"
  {
    if v > 0 then "when Attack > Defense"
    else if v < 0 then "when Defense > Attack"
    else "when Attack = Defense"
  }

  /** The clause a level-up condition contributes in each of its nine slots,
      in their fixed order: level, time of day, location, happiness,
      affection, held item, party species, party type, physical stats. A
      slot is empty when its field does not qualify. */
  function SlotAt(d: EvolutionDetail, k: nat): Option<string>
    requires k < 9
  {
    if k == 0 then (if TruthyNumber(d.minLevel) then Some("Level " + IntToString(d.minLevel.value)) else None)
    else if k == 1 then (if TruthyString(d.timeOfDay) then Some("during " + d.timeOfDay.value) else None)
    else if k == 2 then (if d.location.Some? then Some("at " + d.location.value) else None)
    else if k == 3 then (if TruthyNumber(d.minHappiness) then Some("with high happiness") else None)
    else if k == 4 then (if TruthyNumber(d.minAffection) then Some("with high affection") else None)
    else if k == 5 then (if d.heldItem.Some? then Some("while holding " + d.heldItem.value) else None)
    else if k == 6 then (if d.partySpecies.Some? then Some("with " + d.partySpecies.value + " in party") else None)
    else if k == 7 then (if d.partyType.Some? then Some("with " + d.partyType.value + " type in party") else None)
    else StatsClause(d.relativePhysicalStats)
  }

  /** The physical-stats clause, with `null` treated as absent like every
      other field: a clause exactly for a number, the phrase for its sign. */
  function StatsClause(f: JsonNumber): (c: Option<string>)
    ensures c.Some? <==> f.Number?
    ensures f.Number? ==> c == Some(StatsPhrase(f.value))
  {
    if f.Number? then Some(StatsPhrase(f.value)) else None
  }

  /** The physical-stats clause as the source computes it. The guard is
      `!== undefined`, which `null` passes, and `null` is neither `> 0` nor
      `< 0`, so it reads as equal stats. */
  function StatsClauseAsWritten(f: JsonNumber): (c: Option<string>)
    ensures c.Some? <==> !f.Undefined?
    ensures f.Null? ==> c == Some("when Attack = Defense")
    ensures f.Number? ==> c == Some(StatsPhrase(f.value))
  {
    match f
    case Undefined => None
    case Null => Some("when Attack = Defense")
    case Number(v) => Some(StatsPhrase(v))
  }

  /** The clauses of the first `n` slots that are filled, in slot order. */
  function Clauses(d: EvolutionDetail, n: nat): seq<string>
    requires n <= 9
  {
    if n == 0 then []
    else
      var slot := SlotAt(d, n - 1);
      Clauses(d, n - 1) + (if slot.Some? then [slot.value] else [])
  }

  function LevelUpClauses(d: EvolutionDetail): seq<string> {
    Clauses(d, 9)
  }

  lemma {:induction false} ClausesEmpty(d: EvolutionDetail, n: nat)
    requires n <= 9
    ensures Clauses(d, n) == [] <==> forall k :: 0 <= k < n ==> SlotAt(d, k).None?
  {
    if n > 0 {
      ClausesEmpty(d, n - 1);
    }
  }

  lemma {:induction false} ClausesFromSlots(d: EvolutionDetail, n: nat)
    requires n <= 9
    ensures forall x :: x in Clauses(d, n) ==> exists k :: 0 <= k < n && SlotAt(d, k) == Some(x)
  {
    if n > 0 {
      ClausesFromSlots(d, n - 1);
    }
  }

  /** The description of one evolution condition whose level-up clauses
      are `parts`: the branches of `formatEvolutionTrigger` in order. */
  function DescribeFrom(d: EvolutionDetail, parts: seq<string>): string {
    if d.trigger.None? then ""
    else
      var t := d.trigger.value;
      if t == "level-up" then
        if |parts| > 0 then Join(parts, ", ") else "Level up"
      else if t == "use-item" && d.item.Some? then "Use " + d.item.value
      else if t == "trade" then
        if d.heldItem.Some? then "Trade while holding " + d.heldItem.value
        else if d.tradeSpecies.Some? then "Trade with " + d.tradeSpecies.value
        else "Trade"
      else ReplaceFirst(t, '-', ' ')
  }

  /** The intended description of one evolution condition, with a `null`
      physical-stats comparison treated as absent like every other field.
      The properties below are stated about it. */
  function Describe(d: EvolutionDetail): string {
    DescribeFrom(d, LevelUpClauses(d))
  }

  /** The level-up clauses as the source collects them: the first eight
      slots, then the physical-stats clause under the `!== undefined`
      guard. */
  function LevelUpClausesAsWritten(d: EvolutionDetail): seq<string> {
    Clauses(d, 8) + match StatsClauseAsWritten(d.relativePhysicalStats)
      case Some(c) => [c]
      case None => []
  }

  /** The description exactly as `formatEvolutionTrigger` computes it,
      `null` comparison included. */
  function DescribeAsWritten(d: EvolutionDetail): string {
    DescribeFrom(d, LevelUpClausesAsWritten(d))
  }

  /** The level-up branch of `formatEvolutionTrigger`: each qualifying
      clause is pushed onto `parts` in turn. */
  method CollectLevelUpParts(d: EvolutionDetail) returns (parts: seq<string>)
    ensures parts == LevelUpClausesAsWritten(d)
  {
    parts := [];
    assert parts == Clauses(d, 0);
    parts := parts + if TruthyNumber(d.minLevel) then ["Level " + IntToString(d.minLevel.value)] else [];
    assert parts == Clauses(d, 1);
    parts := parts + if TruthyString(d.timeOfDay) then ["during " + d.timeOfDay.value] else [];
    assert parts == Clauses(d, 2);
    parts := parts + if d.location.Some? then ["at " + d.location.value] else [];
    assert parts == Clauses(d, 3);
    parts := parts + if TruthyNumber(d.minHappiness) then ["with high happiness"] else [];
    assert parts == Clauses(d, 4);
    parts := parts + if TruthyNumber(d.minAffection) then ["with high affection"] else [];
    assert parts == Clauses(d, 5);
    parts := parts + if d.heldItem.Some? then ["while holding " + d.heldItem.value] else [];
    assert parts == Clauses(d, 6);
    parts := parts + if d.partySpecies.Some? then ["with " + d.partySpecies.value + " in party"] else [];
    assert parts == Clauses(d, 7);
    parts := parts + if d.partyType.Some? then ["with " + d.partyType.value + " type in party"] else [];
    assert parts == Clauses(d, 8);
    if !d.relativePhysicalStats.Undefined? {
      var stat := d.relativePhysicalStats;
      if stat.Number? && stat.value > 0 {
        parts := parts + ["when Attack > Defense"];
      } else if stat.Number? && stat.value < 0 {
        parts := parts + ["when Defense > Attack"];
      } else {
        parts := parts + ["when Attack = Defense"];
      }
    }
  }

  /** `formatEvolutionTrigger`: it agrees with the intended description on
      every condition without a `null` comparison, and on every condition
      once `null` is read as 0 (`AsWrittenIsDescribe`). */
  method FormatEvolutionTrigger(d: EvolutionDetail) returns (s: string)
    ensures s == DescribeAsWritten(d)
  {
    if d.trigger.None? {
      return "";
    }
    var t := d.trigger.value;
    if t == "level-up" {
      var parts := CollectLevelUpParts(d);
      return if |parts| > 0 then Join(parts, ", ") else "Level up";
    }
    if t == "use-item" && d.item.Some? {
      return "Use " + d.item.value;
    }
    if t == "trade" {
      if d.heldItem.Some? {
        return "Trade while holding " + d.heldItem.value;
      }
      if d.tradeSpecies.Some? {
        return "Trade with " + d.tradeSpecies.value;
      }
      return "Trade";
    }
    return ReplaceFirst(t, '-', ' ');
  }

  // --------------------------------------- properties of the descriptions

  /** A level-up condition none of whose clause fields qualifies: the first
      eight under JavaScript truthiness, as the source tests them, and
      `relative_physical_stats` under the intended test, which it passes
      exactly when it is a number. */
  predicate NoLevelUpClause(d: EvolutionDetail) {
    && !TruthyNumber(d.minLevel)
    && !TruthyString(d.timeOfDay)
    && d.location.None?
    && !TruthyNumber(d.minHappiness)
    && !TruthyNumber(d.minAffection)
    && d.heldItem.None?
    && d.partySpecies.None?
    && d.partyType.None?
    && !d.relativePhysicalStats.Number?
  }

  lemma NoClauseIsNoSlot(d: EvolutionDetail)
    ensures NoLevelUpClause(d) <==> forall k :: 0 <= k < 9 ==> SlotAt(d, k).None?
  {
    if forall k :: 0 <= k < 9 ==> SlotAt(d, k).None? {
      assert SlotAt(d, 0).None? && SlotAt(d, 1).None? && SlotAt(d, 2).None?;
      assert SlotAt(d, 3).None? && SlotAt(d, 4).None? && SlotAt(d, 5).None?;
      assert SlotAt(d, 6).None? && SlotAt(d, 7).None? && SlotAt(d, 8).None?;
    }
  }

  /** No clause is a prefix of the fallback "Level up". */
  lemma SlotIsNotFallbackPrefix(d: EvolutionDetail, k: nat)
    requires k < 9 && SlotAt(d, k).Some?
    ensures var v := SlotAt(d, k).value; !(|v| <= |"Level up"| && "Level up"[..|v|] == v)
  {
    var v := SlotAt(d, k).value;
    if k == 0 {
      var n := IntToString(d.minLevel.value);
      assert v == "Level " + n && v[6] == n[0];
    } else {
      assert v[0] != 'L';
    }
  }

  /** A level-up condition is described as "Level up" exactly when none of
      its clause fields qualifies; otherwise it is described by its clauses,
      in slot order, joined by ", ". */
  lemma LevelUpFallback(d: EvolutionDetail)
    requires d.trigger == Some("level-up")
    ensures Describe(d) == "Level up" <==> NoLevelUpClause(d)
    ensures !NoLevelUpClause(d) ==> |LevelUpClauses(d)| > 0 && Describe(d) == Join(LevelUpClauses(d), ", ")
  {
    var parts := LevelUpClauses(d);
    ClausesEmpty(d, 9);
    NoClauseIsNoSlot(d);
    if parts != [] {
      ClausesFromSlots(d, 9);
      assert parts[0] in parts;
      var k :| 0 <= k < 9 && SlotAt(d, k) == Some(parts[0]);
      SlotIsNotFallbackPrefix(d, k);
      JoinStartsWithFirst(parts, ", ");
    }
  }

  /** Conditions with the same trigger, item fields and clauses have the same
      description. */
  lemma {:induction false} SameClausesSameDescription(d1: EvolutionDetail, d2: EvolutionDetail)
    requires d1.trigger == d2.trigger && d1.item == d2.item
    requires d1.heldItem == d2.heldItem && d1.tradeSpecies == d2.tradeSpecies
    requires forall k :: 0 <= k < 9 ==> SlotAt(d1, k) == SlotAt(d2, k)
    ensures Describe(d1) == Describe(d2)
  {
    ClausesAgree(d1, d2, 9);
  }

  lemma {:induction false} ClausesAgree(d1: EvolutionDetail, d2: EvolutionDetail, n: nat)
    requires n <= 9
    requires forall k :: 0 <= k < n ==> SlotAt(d1, k) == SlotAt(d2, k)
    ensures Clauses(d1, n) == Clauses(d2, n)
  {
    if n > 0 {
      ClausesAgree(d1, d2, n - 1);
    }
  }

  /** JavaScript truthiness: a level, happiness or affection of 0, and an
      empty time of day, describe exactly as if the field were absent. */
  lemma FalsyFieldsAreAbsent(d: EvolutionDetail)
    ensures Describe(d.(minLevel := Some(0))) == Describe(d.(minLevel := None))
    ensures Describe(d.(timeOfDay := Some(""))) == Describe(d.(timeOfDay := None))
    ensures Describe(d.(minHappiness := Some(0))) == Describe(d.(minHappiness := None))
    ensures Describe(d.(minAffection := Some(0))) == Describe(d.(minAffection := None))
  {
    SameClausesSameDescription(d.(minLevel := Some(0)), d.(minLevel := None));
    SameClausesSameDescription(d.(timeOfDay := Some("")), d.(timeOfDay := None));
    SameClausesSameDescription(d.(minHappiness := Some(0)), d.(minHappiness := None));
    SameClausesSameDescription(d.(minAffection := Some(0)), d.(minAffection := None));
  }

  /** The happiness and affection clauses are fixed phrases: which non-zero
      threshold is required never shows in the description. */
  lemma ThresholdsAreNotShown(d: EvolutionDetail, a: int, b: int)
    requires a != 0 && b != 0
    ensures Describe(d.(minHappiness := Some(a))) == Describe(d.(minHappiness := Some(b)))
    ensures Describe(d.(minAffection := Some(a))) == Describe(d.(minAffection := Some(b)))
  {
    SameClausesSameDescription(d.(minHappiness := Some(a)), d.(minHappiness := Some(b)));
    SameClausesSameDescription(d.(minAffection := Some(a)), d.(minAffection := Some(b)));
  }

  /** Beauty, overworld rain and turning the console upside down never
      change a description. */
  lemma IgnoredFields(d: EvolutionDetail, beauty: Option<int>, rain: Option<bool>, upsideDown: Option<bool>)
    ensures Describe(d.(minBeauty := beauty, needsOverworldRain := rain, turnUpsideDown := upsideDown)) == Describe(d)
  {
    SameClausesSameDescription(d.(minBeauty := beauty, needsOverworldRain := rain, turnUpsideDown := upsideDown), d);
  }

  /** A physical-stats comparison ends a level-up description with the
      phrase for its sign. */
  lemma PhysicalStatsClauseIsLast(d: EvolutionDetail, v: int)
    requires d.trigger == Some("level-up") && d.relativePhysicalStats == Number(v)
    ensures var r := Describe(d); var p := StatsPhrase(v);
      |p| <= |r| && r[|r| - |p|..] == p
  {
    var parts := LevelUpClauses(d);
    assert parts == Clauses(d, 8) + [StatsPhrase(v)];
    JoinEndsWithLast(parts, ", ");
  }

  /** Unlike the other numeric fields, a physical-stats comparison of 0 is
      not the same as an absent one. */
  lemma ZeroStatsIsNotAbsent(d: EvolutionDetail)
    requires d.trigger == Some("level-up")
    ensures Describe(d.(relativePhysicalStats := Number(0))) != Describe(d.(relativePhysicalStats := Undefined))
  {
    var zero := d.(relativePhysicalStats := Number(0));
    var absent := d.(relativePhysicalStats := Undefined);
    ClausesAgree(zero, absent, 8);
    var before := Clauses(absent, 8);
    assert LevelUpClauses(absent) == before;
    assert LevelUpClauses(zero) == before + ["when Attack = Defense"];
    if before != [] {
      JoinSnoc(before, "when Attack = Defense", ", ");
    }
  }

  /** A `null` physical-stats comparison describes exactly as a missing one,
      as `null` does for every other field. */
  lemma NullStatsIsAbsent(d: EvolutionDetail)
    ensures Describe(d.(relativePhysicalStats := Null)) == Describe(d.(relativePhysicalStats := Undefined))
  {
    SameClausesSameDescription(d.(relativePhysicalStats := Null), d.(relativePhysicalStats := Undefined));
  }

  /** The code as written and the model agree except on `null`. */
  lemma AsWrittenDiffersOnlyOnNull(d: EvolutionDetail)
    ensures !d.relativePhysicalStats.Null? ==> LevelUpClausesAsWritten(d) == LevelUpClauses(d)
    ensures d.relativePhysicalStats.Null? ==> LevelUpClausesAsWritten(d) == LevelUpClauses(d) + ["when Attack = Defense"]
  {
  }

  /** What `formatEvolutionTrigger` computes is the intended description
      of the same condition with a `null` comparison read as 0, so every
      property of `Describe` holds of it under that reading. Without a
      `null` comparison, or off level-up, it is the intended description
      itself. */
  lemma AsWrittenIsDescribe(d: EvolutionDetail)
    ensures !d.relativePhysicalStats.Null? ==> DescribeAsWritten(d) == Describe(d)
    ensures d.trigger != Some("level-up") ==> DescribeAsWritten(d) == Describe(d)
    ensures DescribeAsWritten(d) == Describe(d.(relativePhysicalStats := AsWrittenStats(d.relativePhysicalStats)))
  {
    var e := d.(relativePhysicalStats := AsWrittenStats(d.relativePhysicalStats));
    ClausesAgree(d, e, 8);
  }

  /** The truthiness of the first eight fields carries over to the code,
      `null` comparison included: 0, "" and a missing field describe alike. */
  lemma AsWrittenFalsyFieldsAreAbsent(d: EvolutionDetail)
    ensures DescribeAsWritten(d.(minLevel := Some(0))) == DescribeAsWritten(d.(minLevel := None))
    ensures DescribeAsWritten(d.(timeOfDay := Some(""))) == DescribeAsWritten(d.(timeOfDay := None))
    ensures DescribeAsWritten(d.(minHappiness := Some(0))) == DescribeAsWritten(d.(minHappiness := None))
    ensures DescribeAsWritten(d.(minAffection := Some(0))) == DescribeAsWritten(d.(minAffection := None))
  {
    var e := d.(relativePhysicalStats := AsWrittenStats(d.relativePhysicalStats));
    FalsyFieldsAreAbsent(e);
    AsWrittenIsDescribe(d.(minLevel := Some(0)));
    AsWrittenIsDescribe(d.(minLevel := None));
    AsWrittenIsDescribe(d.(timeOfDay := Some("")));
    AsWrittenIsDescribe(d.(timeOfDay := None));
    AsWrittenIsDescribe(d.(minHappiness := Some(0)));
    AsWrittenIsDescribe(d.(minHappiness := None));
    AsWrittenIsDescribe(d.(minAffection := Some(0)));
    AsWrittenIsDescribe(d.(minAffection := None));
  }

  /** The physical-stats comparison as the source reads it: `null` is
      neither above nor below 0, so it counts as a comparison of 0. */
  function AsWrittenStats(f: JsonNumber): (g: JsonNumber)
    ensures f.Null? ==> g == Number(0)
    ensures !f.Null? ==> g == f
  {
    if f.Null? then Number(0) else f
  }

  /** As written, a `null` comparison reads as equal stats instead of as
      absent: every level-up the API sends with
      `relative_physical_stats: null` gets a trailing
      "when Attack = Defense" that the intended description lacks. */
  lemma NullStatsAsWritten(d: EvolutionDetail)
    requires d.trigger == Some("level-up") && d.relativePhysicalStats == Null
    ensures var r := DescribeAsWritten(d); var p := "when Attack = Defense";
      |p| <= |r| && r[|r| - |p|..] == p
    ensures DescribeAsWritten(d) != Describe(d)
    ensures LevelUpClauses(d) == [] ==> DescribeAsWritten(d) == "when Attack = Defense"
    ensures LevelUpClauses(d) != [] ==> DescribeAsWritten(d) == Describe(d) + ", " + "when Attack = Defense"
  {
    var before := Clauses(d, 8);
    var written := LevelUpClausesAsWritten(d);
    assert written == before + ["when Attack = Defense"];
    assert LevelUpClauses(d) == before;
    JoinEndsWithLast(written, ", ");
    if before != [] {
      JoinSnoc(before, "when Attack = Defense", ", ");
    } else {
      assert written == ["when Attack = Defense"];
    }
  }

  /** The first evolution of a level-16 starter, as the API sends it with
      `relative_physical_stats: null`, is meant to read "Level 16". */
  lemma NullStatsExample()
    ensures var d := NoConditions.(trigger := Some("level-up"), minLevel := Some(16), relativePhysicalStats := Null);
      Describe(d) == "Level 16"
  {
  }

  /** The code as written describes the same evolution as
      "Level 16, when Attack = Defense". */
  lemma NullStatsAsWrittenExample()
    ensures var d := NoConditions.(trigger := Some("level-up"), minLevel := Some(16), relativePhysicalStats := Null);
      DescribeAsWritten(d) == "Level 16" + ", " + "when Attack = Defense"
  {
    var d := NoConditions.(trigger := Some("level-up"), minLevel := Some(16), relativePhysicalStats := Null);
    NullStatsAsWritten(d);
    NullStatsExample();
  }

  /** No trigger gives the empty description, and an item use with an item
      is "Use" and the item, whatever the other fields hold. */
  lemma AbsentTriggerAndItemUse(d: EvolutionDetail)
    ensures d.trigger.None? ==> Describe(d) == ""
    ensures d.trigger == Some("use-item") && d.item.Some? ==> Describe(d) == "Use " + d.item.value
  {
  }

  /** For a trade, a held item takes priority over a trade species, and no
      other field matters. */
  lemma TradeDescription(d: EvolutionDetail)
    requires d.trigger == Some("trade")
    ensures d.heldItem.Some? ==> Describe(d) == "Trade while holding " + d.heldItem.value
    ensures d.heldItem.None? && d.tradeSpecies.Some? ==> Describe(d) == "Trade with " + d.tradeSpecies.value
    ensures d.heldItem.None? && d.tradeSpecies.None? ==> Describe(d) == "Trade"
    ensures forall e: EvolutionDetail ::
      (e.trigger == d.trigger && e.heldItem == d.heldItem && (d.heldItem.None? ==> e.tradeSpecies == d.tradeSpecies))
      ==> Describe(e) == Describe(d)
  {
  }

  /** Any trigger other than level-up, trade, and use-item with an item is
      shown under its own name with only its first '-' turned into a space. */
  lemma GenericFallback(d: EvolutionDetail)
    requires d.trigger.Some? && d.trigger.value != "level-up" && d.trigger.value != "trade"
    requires !(d.trigger.value == "use-item" && d.item.Some?)
    ensures var t := d.trigger.value; var r := Describe(d);
      |r| == |t| && forall j :: 0 <= j < |t| ==> r[j] == if j == IndexOf(t, '-') then ' ' else t[j]
  {
  }

  /** A condition with no field set. */
  const NoConditions: EvolutionDetail :=
    EvolutionDetail(None, None, None, None, None, None, None, None, None, Undefined, None, None, None, None, None)

  /** A level-up without conditions is "Level up". */
  lemma PlainLevelUpExample()
    ensures Describe(NoConditions.(trigger := Some("level-up"))) == "Level up"
  {
  }

  /** A minimum level is rendered in decimal. */
  lemma MinLevelExample()
    ensures Describe(NoConditions.(trigger := Some("level-up"), minLevel := Some(16))) == "Level 16"
  {
  }

  /** Clauses are joined by ", " in slot order. */
  lemma LevelAndTimeExample()
    ensures Describe(NoConditions.(trigger := Some("level-up"), minLevel := Some(7), timeOfDay := Some("day")))
              == "Level 7" + ", " + "during day"
  {
  }

  /** Descriptions of typical item and trade conditions. */
  lemma ItemAndTradeExamples()
    ensures Describe(NoConditions.(trigger := Some("use-item"), item := Some("thunder-stone"))) == "Use thunder-stone"
    ensures Describe(NoConditions.(trigger := Some("trade"), heldItem := Some("metal-coat"), tradeSpecies := Some("karrablast")))
              == "Trade while holding metal-coat"
    ensures Describe(NoConditions.(trigger := Some("trade"))) == "Trade"
    ensures Describe(NoConditions) == ""
  {
  }

  /** Only the first '-' of an unrecognised trigger becomes a space: the
      part after it keeps any further '-'. */
  lemma OnlyFirstDashReplaced(d: EvolutionDetail, before: string, after: string)
    requires d.trigger == Some(before + "-" + after) && '-' !in before
    requires before + "-" + after != "level-up" && before + "-" + after != "trade"
    requires !(before + "-" + after == "use-item" && d.item.Some?)
    ensures Describe(d) == before + " " + after
  {
    ReplaceFirstSplit(before, after, '-', ' ');
  }

  // ------------------------------------------------- evolution trees

  /** `buildEvolutionTree`: fetch the record of the link's species, then
      resolve every link it evolves into, keeping their order; the first
      failure is the result. */
  function BuildEvolutionTree(remote: Remote, link: ChainLink): Result<EvolutionNode>
    decreases link
  {
    match GetPokemon(remote, link.species.name)
    case Err(m) => Err(m)
    case Ok(p) =>
      var children := seq(|link.evolvesTo|, i requires 0 <= i < |link.evolvesTo| => BuildEvolutionTree(remote, link.evolvesTo[i]));
      match All(children)
      case Err(m) => Err(m)
      case Ok(nodes) => Ok(EvolutionNode(p, link.evolutionDetails, nodes))
  }

  /** `node` is `link` with every species reference replaced by the record the
      remote API serves for that species' name, and the same shape. */
  ghost predicate Resolves(remote: Remote, link: ChainLink, node: EvolutionNode)
    decreases link
  {
    && remote.pokemonAt(PokemonUrl(link.species.name)) == Some(node.pokemon)
    && node.evolutionDetails == link.evolutionDetails
    && |node.evolvesTo| == |link.evolvesTo|
    && forall i :: 0 <= i < |link.evolvesTo| ==> Resolves(remote, link.evolvesTo[i], node.evolvesTo[i])
  }

  /** Every species of the chain can be fetched. */
  ghost predicate AllFetchable(remote: Remote, link: ChainLink)
    decreases link
  {
    && remote.pokemonAt(PokemonUrl(link.species.name)).Some?
    && forall i :: 0 <= i < |link.evolvesTo| ==> AllFetchable(remote, link.evolvesTo[i])
  }

  /** Building a tree succeeds exactly when every species can be fetched; the
      tree built is the resolution of the chain, and the only one; a failure
      is a failure to fetch a record. */
  lemma {:induction false} BuildEvolutionTreeSpec(remote: Remote, link: ChainLink)
    ensures BuildEvolutionTree(remote, link).Ok? <==> AllFetchable(remote, link)
    ensures forall node :: BuildEvolutionTree(remote, link) == Ok(node) <==> Resolves(remote, link, node)
    ensures BuildEvolutionTree(remote, link).Err? ==> BuildEvolutionTree(remote, link).message == "Failed to fetch Pokemon"
    decreases link
  {
    forall i | 0 <= i < |link.evolvesTo| {
      BuildEvolutionTreeSpec(remote, link.evolvesTo[i]);
    }
    var r := BuildEvolutionTree(remote, link);
    var children := seq(|link.evolvesTo|, i requires 0 <= i < |link.evolvesTo| => BuildEvolutionTree(remote, link.evolvesTo[i]));
    assert forall i :: 0 <= i < |children| ==> children[i] == BuildEvolutionTree(remote, link.evolvesTo[i]);
    forall node | Resolves(remote, link, node) ensures r == Ok(node) {
      assert forall i :: 0 <= i < |children| ==> children[i] == Ok(node.evolvesTo[i]);
      assert All(children).value == node.evolvesTo;
    }
  }

  /** `getPokemonEvolutionChain`: the species of `nameOrId`, then its
      evolution chain, then the tree of that chain. A number is passed as its
      decimal rendering. */
  function GetPokemonEvolutionChain(remote: Remote, nameOrId: string): Result<EvolutionNode> {
    match GetPokemonSpecies(remote, nameOrId)
    case Err(m) => Err(m)
    case Ok(species) =>
      match GetEvolutionChain(remote, species.evolutionChainUrl)
      case Err(m) => Err(m)
      case Ok(chain) => BuildEvolutionTree(remote, chain.chain)
  }

  /** Each way `getPokemonEvolutionChain` can end: the missing species, the
      missing chain, or the tree of the chain, which is its resolution and
      exists exactly when every record can be fetched. */
  lemma EvolutionChainOutcome(remote: Remote, nameOrId: string)
    ensures remote.speciesAt(SpeciesUrl(nameOrId)).None? ==>
              GetPokemonEvolutionChain(remote, nameOrId) == Err("Failed to fetch Pokemon species")
    ensures forall species ::
              (remote.speciesAt(SpeciesUrl(nameOrId)) == Some(species) && remote.chainAt(species.evolutionChainUrl).None?)
              ==> GetPokemonEvolutionChain(remote, nameOrId) == Err("Failed to fetch evolution chain")
    ensures forall species, chain ::
              (remote.speciesAt(SpeciesUrl(nameOrId)) == Some(species) && remote.chainAt(species.evolutionChainUrl) == Some(chain))
              ==>
              && (GetPokemonEvolutionChain(remote, nameOrId).Ok? <==> AllFetchable(remote, chain.chain))
              && (forall node :: GetPokemonEvolutionChain(remote, nameOrId) == Ok(node) <==> Resolves(remote, chain.chain, node))
              && (GetPokemonEvolutionChain(remote, nameOrId).Err? ==>
                    GetPokemonEvolutionChain(remote, nameOrId) == Err("Failed to fetch Pokemon"))
  {
    match remote.speciesAt(SpeciesUrl(nameOrId))
    case None =>
    case Some(species) =>
      match remote.chainAt(species.evolutionChainUrl)
      case None =>
      case Some(chain) => BuildEvolutionTreeSpec(remote, chain.chain);
  }
}
