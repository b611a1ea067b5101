/** The shaping stages of `getPokemonGendersByGenerationData`: gender details
    split into name lists, each generation's species counted per gender, one
    dataset per gender name. Every detail request has its own `catchError`,
    so a failed detail is a None inside an emitted list; a failed listing is
    the outer None. */
module GenderCharts {
  import opened Wrappers
  import opened ChartTypes

  /** A gender's detail: its name and the names in `pokemon_species_details[].pokemon_species`. */
  datatype GenderDetail = GenderDetail(genderName: string, speciesNames: seq<string>)

  /** A generation's detail: its name and the names in `pokemon_species`. */
  datatype GenerationDetail = GenerationDetail(generation: string, speciesNames: seq<string>)

  /** The gender stage's result: the listed gender names and the species
      names of the female, male and genderless details (`[]` when missing). */
  datatype Buckets = Buckets(genders: seq<string>, female: seq<string>, male: seq<string>, genderless: seq<string>)

  /** One generation's row of the cross-tabulation: its name (`undefined` for
      a failed request) and its species names found in each gender's list. */
  datatype Row = Row(generation: Option<string>, genderless: seq<string>, female: seq<string>, male: seq<string>)

  /** `.map((d) => d?.genderName).filter((name) => !!name)` */
  function GenderNames(details: seq<Option<GenderDetail>>): (names: seq<string>)
    ensures forall k :: 0 <= k < |names| ==> names[k] != ""
  {
    if details == [] then []
    else
      var rest := GenderNames(details[1..]);
      match details[0]
      case Some(d) => if d.genderName != "" then [d.genderName] + rest else rest
      case None => rest
  }

  /** `genderDetails.find((d) => d?.genderName === name)`: the first successful detail of that name. */
  function FindGender(details: seq<Option<GenderDetail>>, name: string): (found: Option<GenderDetail>)
    ensures found.None? <==> forall i :: 0 <= i < |details| ==> !(details[i].Some? && details[i].value.genderName == name)
    ensures found.Some? ==> found.value.genderName == name
    ensures found.Some? ==>
      (exists i :: 0 <= i < |details| && details[i] == found
                   && (forall j :: 0 <= j < i ==> !(details[j].Some? && details[j].value.genderName == name)))
  {
    if details == [] then None
    else if details[0].Some? && details[0].value.genderName == name then details[0]
    else FindGender(details[1..], name)
  }

  /** `found?.pokemonSpecies.map((p) => p.pokemon_species.name) || []` */
  function SpeciesOf(found: Option<GenderDetail>): seq<string>
  {
    match found
    case Some(d) => d.speciesNames
    case None => []
  }

  /** The two gender stages: a failed listing gives no names and empty lists
      (the pipeline goes on); otherwise the names and the three lists. */
  function GenderBuckets(genders: Option<seq<Option<GenderDetail>>>): Buckets
  {
    match genders
    case None => Buckets([], [], [], [])
    case Some(details) =>
      Buckets(GenderNames(details),
              SpeciesOf(FindGender(details, "female")),
              SpeciesOf(FindGender(details, "male")),
              SpeciesOf(FindGender(details, "genderless")))
  }

  /** `names.filter((name) => list.includes(name))` */
  function Among(names: seq<string>, list: seq<string>): (r: seq<string>)
    ensures |r| <= |names|
  {
    if names == [] then []
    else if names[0] in list then [names[0]] + Among(names[1..], list)
    else Among(names[1..], list)
  }

  /** `gen?.pokemonNames || []` */
  function GenerationSpecies(gen: Option<GenerationDetail>): seq<string>
  {
    match gen
    case Some(g) => g.speciesNames
    case None => []
  }

  /** One row of `genderPokemonsPerGeneration`. */
  function RowOf(gen: Option<GenerationDetail>, b: Buckets): Row
  {
    var names := GenerationSpecies(gen);
    Row(match gen case Some(g) => Some(g.generation) case None => None,
        Among(names, b.genderless), Among(names, b.female), Among(names, b.male))
  }

  /** `generationResponses` mapped row by row, failed generations included. */
  function CrossTab(gens: seq<Option<GenerationDetail>>, b: Buckets): (rows: seq<Row>)
    ensures |rows| == |gens|
  {
    seq(|gens|, i requires 0 <= i < |gens| => RowOf(gens[i], b))
  }

  /** `generation[gender]?.length || 0`: the row's own keys are the three
      gender lists and `generation`, whose value is a string. */
  function Cell(gender: string, row: Row): nat
  {
    if gender == "female" then |row.female|
    else if gender == "male" then |row.male|
    else if gender == "genderless" then |row.genderless|
    else if gender == "generation" then (match row.generation case Some(g) => |g| case None => 0)
    else 0
  }

  /** `backgroundColor[gender]` from the fixed table of the last stage. */
  function GenderColor(gender: string): Color
  {
    if gender == "female" then Hsla(330.0, 100, 70, 1.0)
    else if gender == "male" then Hsla(240.0, 100, 50, 1.0)
    else if gender == "genderless" then Hsla(0.0, 0, 50, 1.0)
    else Undefined
  }

  /** `generations.filter((res) => res).map((res) => res?.generation)` */
  function SuccessfulNames(gens: seq<Option<GenerationDetail>>): (names: seq<string>)
    ensures |names| <= |gens|
    ensures |names| == |gens| <==> forall i :: 0 <= i < |gens| ==> gens[i].Some?
  {
    if gens == [] then []
    else match gens[0]
      case Some(g) => [g.generation] + SuccessfulNames(gens[1..])
      case None => SuccessfulNames(gens[1..])
  }

  /** The dataset of one gender: one cell per generation response. */
  function GenderDataSet(gender: string, rows: seq<Row>): DataSet
  {
    DataSet(gender, seq(|rows|, i requires 0 <= i < |rows| => Cell(gender, rows[i])), [GenderColor(gender)], None, None)
  }

  /** The whole stage chain: null only when the generation listing failed. */
  function GenderChart(genders: Option<seq<Option<GenderDetail>>>,
                       generations: Option<seq<Option<GenerationDetail>>>): Option<ChartData>
  {
    match generations
    case None => None
    case Some(gens) =>
      var b := GenderBuckets(genders);
      var rows := CrossTab(gens, b);
      Some(ChartData(SuccessfulNames(gens),
                     seq(|b.genders|, j requires 0 <= j < |b.genders| => GenderDataSet(b.genders[j], rows))))
  }

  /** The species list a gender name reads from, for the three gender names. */
  function BucketOf(b: Buckets, gender: string): Option<seq<string>>
  {
    if gender == "female" then Some(b.female)
    else if gender == "male" then Some(b.male)
    else if gender == "genderless" then Some(b.genderless)
    else None
  }

  /** The gender names of a concatenation are the names of each part. */
  lemma {:induction false} GenderNamesAppend(a: seq<Option<GenderDetail>>, b: seq<Option<GenderDetail>>)
    ensures GenderNames(a + b) == GenderNames(a) + GenderNames(b)
  {
    if a == [] {
      assert a + b == b;
    } else {
      var ab := a + b;
      assert ab[0] == a[0] && ab[1..] == a[1..] + b;
      GenderNamesAppend(a[1..], b);
      var head := if a[0].Some? && a[0].value.genderName != "" then [a[0].value.genderName] else [];
      assert GenderNames(a) == head + GenderNames(a[1..]);
      assert GenderNames(ab) == head + GenderNames(ab[1..]);
    }
  }

  /** When every gender detail succeeded with a name, the names are all of them, in order. */
  lemma {:induction false} GenderNamesAllSucceeded(details: seq<Option<GenderDetail>>)
    requires forall i :: 0 <= i < |details| ==> details[i].Some? && details[i].value.genderName != ""
    ensures |GenderNames(details)| == |details|
    ensures forall i :: 0 <= i < |details| ==> GenderNames(details)[i] == details[i].value.genderName
  {
    if details != [] {
      GenderNamesAllSucceeded(details[1..]);
      assert GenderNames(details) == [details[0].value.genderName] + GenderNames(details[1..]);
    }
  }

  /** A failed detail contributes no name, a successful one its name unless it is empty. */
  lemma GenderNamesSingle(d: Option<GenderDetail>)
    ensures GenderNames([d]) == if d.Some? && d.value.genderName != "" then [d.value.genderName] else []
  {
    assert [d][1..] == [];
  }

  /** The labels of a concatenation are the labels of each part. */
  lemma {:induction false} SuccessfulNamesAppend(a: seq<Option<GenerationDetail>>, b: seq<Option<GenerationDetail>>)
    ensures SuccessfulNames(a + b) == SuccessfulNames(a) + SuccessfulNames(b)
  {
    if a == [] {
      assert a + b == b;
    } else {
      var ab := a + b;
      assert ab[0] == a[0] && ab[1..] == a[1..] + b;
      SuccessfulNamesAppend(a[1..], b);
      var head := if a[0].Some? then [a[0].value.generation] else [];
      assert SuccessfulNames(a) == head + SuccessfulNames(a[1..]);
      assert SuccessfulNames(ab) == head + SuccessfulNames(ab[1..]);
    }
  }

  /** When every generation request succeeded, the labels are all their names, in order. */
  lemma {:induction false} SuccessfulNamesAllSucceeded(gens: seq<Option<GenerationDetail>>)
    requires forall i :: 0 <= i < |gens| ==> gens[i].Some?
    ensures |SuccessfulNames(gens)| == |gens|
    ensures forall i :: 0 <= i < |gens| ==> SuccessfulNames(gens)[i] == gens[i].value.generation
  {
    if gens != [] {
      SuccessfulNamesAllSucceeded(gens[1..]);
      assert SuccessfulNames(gens) == [gens[0].value.generation] + SuccessfulNames(gens[1..]);
    }
  }

  /** A failed generation contributes no label, a successful one its name. */
  lemma SuccessfulNamesSingle(g: Option<GenerationDetail>)
    ensures SuccessfulNames([g]) == if g.Some? then [g.value.generation] else []
  {
    assert [g][1..] == [];
  }

  /** `Among` keeps each name of the generation that is in the list, as
      often as it occurs, and no other. */
  lemma {:induction false} AmongCounts(names: seq<string>, list: seq<string>)
    ensures forall n :: multiset(Among(names, list))[n] == if n in list then multiset(names)[n] else 0
  {
    if names != [] {
      AmongCounts(names[1..], list);
      assert names == [names[0]] + names[1..];
    }
  }

  /** If no species is in two of the lists, the three counts of a generation
      add up to at most its species count. */
  lemma {:induction false} AmongDisjointBound(names: seq<string>, f: seq<string>, m: seq<string>, g: seq<string>)
    requires forall n :: n in f ==> n !in m && n !in g
    requires forall n :: n in m ==> n !in g
    ensures |Among(names, f)| + |Among(names, m)| + |Among(names, g)| <= |names|
  {
    if names != [] {
      AmongDisjointBound(names[1..], f, m, g);
    }
  }

  /** A generation's three gender cells add up to at most its species count
      when no species is in two gender lists. */
  lemma RowCellsBound(gen: Option<GenerationDetail>, b: Buckets)
    requires forall n :: n in b.female ==> n !in b.male && n !in b.genderless
    requires forall n :: n in b.male ==> n !in b.genderless
    ensures Cell("female", RowOf(gen, b)) + Cell("male", RowOf(gen, b)) + Cell("genderless", RowOf(gen, b))
         <= |GenerationSpecies(gen)|
  {
    AmongDisjointBound(GenerationSpecies(gen), b.female, b.male, b.genderless);
  }

  /** Layout of the gender chart: null exactly when the generation listing
      failed; one dataset per gender name in listing order, each with one
      entry per generation response; labels only for the successful
      generations, so labels and data agree in length exactly when none failed. */
  lemma GenderChartShape(genders: Option<seq<Option<GenderDetail>>>,
                         generations: Option<seq<Option<GenerationDetail>>>)
    ensures GenderChart(genders, generations).None? <==> generations.None?
    ensures generations.Some? ==>
      var c := GenderChart(genders, generations).value;
      var gens := generations.value;
      var names := GenderBuckets(genders).genders;
      && (genders.None? ==> names == [])
      && (genders.Some? ==> names == GenderNames(genders.value))
      && |c.datasets| == |names|
      && c.labels == SuccessfulNames(gens)
      && ((forall i :: 0 <= i < |gens| ==> gens[i].Some?) ==>
            |c.labels| == |gens| && forall i :: 0 <= i < |gens| ==> c.labels[i] == gens[i].value.generation)
      && (forall j :: 0 <= j < |names| ==>
            c.datasets[j].seriesLabel == names[j] && names[j] != ""
            && |c.datasets[j].data| == |gens|
            && (|c.labels| == |c.datasets[j].data| <==> forall i :: 0 <= i < |gens| ==> gens[i].Some?))
  {
    if generations.Some? && forall i :: 0 <= i < |generations.value| ==> generations.value[i].Some? {
      SuccessfulNamesAllSucceeded(generations.value);
    }
  }

  /** The counts: for female, male and genderless, entry `i` is the number
      of generation `i`'s species names found in that gender's list, at most
      the generation's species count and 0 for a failed generation; the name
      `generation` reads the length of the generation's name; any other name
      gets 0 everywhere. */
  lemma GenderChartCounts(genders: Option<seq<Option<GenderDetail>>>,
                          gens: seq<Option<GenerationDetail>>, j: nat, i: nat)
    requires j < |GenderBuckets(genders).genders| && i < |gens|
    ensures
      var b := GenderBuckets(genders);
      var gender := b.genders[j];
      var cell := GenderChart(genders, Some(gens)).value.datasets[j].data[i];
      var species := GenerationSpecies(gens[i]);
      && (BucketOf(b, gender).Some? ==>
            cell == |Among(species, BucketOf(b, gender).value)| && cell <= |species|)
      && (gens[i].None? ==> cell == 0)
      && (BucketOf(b, gender).None? && gender != "generation" ==> cell == 0)
      && (gender == "generation" ==> cell == if gens[i].Some? then |gens[i].value.generation| else 0)
  {
  }

  /** Each known gender's dataset has its fixed colour; other names get `undefined`. */
  lemma GenderChartColors(genders: Option<seq<Option<GenderDetail>>>,
                          gens: seq<Option<GenerationDetail>>, j: nat)
    requires j < |GenderBuckets(genders).genders|
    ensures
      var gender := GenderBuckets(genders).genders[j];
      var colors := GenderChart(genders, Some(gens)).value.datasets[j].backgroundColor;
      && (gender == "female" ==> colors == [Hsla(330.0, 100, 70, 1.0)])
      && (gender == "male" ==> colors == [Hsla(240.0, 100, 50, 1.0)])
      && (gender == "genderless" ==> colors == [Hsla(0.0, 0, 50, 1.0)])
      && (BucketOf(GenderBuckets(genders), gender).None? ==> colors == [Undefined])
  {
  }

  /** A failed gender listing does not null the chart: it keeps the
      generation labels and has no dataset at all. */
  lemma GenderListingFailure(gens: seq<Option<GenerationDetail>>)
    ensures GenderChart(None, Some(gens)) == Some(ChartData(SuccessfulNames(gens), []))
  {
    var c := GenderChart(None, Some(gens)).value;
    assert |c.datasets| == 0;
  }

  /** The gender details of the example below and their buckets. */
  const ExampleGenders: seq<Option<GenderDetail>> :=
    [Some(GenderDetail("female", ["bulbasaur"])),
     Some(GenderDetail("male", ["ivysaur", "chikorita"])),
     Some(GenderDetail("genderless", []))]

  lemma ExampleBuckets()
    ensures GenderBuckets(Some(ExampleGenders))
         == Buckets(["female", "male", "genderless"], ["bulbasaur"], ["ivysaur", "chikorita"], [])
  {
    var d := ExampleGenders;
    assert d[1..][1..] == [d[2]];
    assert GenderNames(d[1..][1..]) == ["genderless"];
  }

  lemma ExampleRows(b: Buckets)
    requires b == Buckets(["female", "male", "genderless"], ["bulbasaur"], ["ivysaur", "chikorita"], [])
    ensures RowOf(Some(GenerationDetail("generation-i", ["bulbasaur", "ivysaur"])), b)
         == Row(Some("generation-i"), [], ["bulbasaur"], ["ivysaur"])
    ensures RowOf(Some(GenerationDetail("generation-ii", ["chikorita"])), b)
         == Row(Some("generation-ii"), [], [], ["chikorita"])
  {
    assert "ivysaur" !in ["bulbasaur"];
    assert "chikorita" !in ["bulbasaur"];
    assert "bulbasaur" !in ["ivysaur", "chikorita"];
  }

  lemma ExampleDataSets(rows: seq<Row>)
    requires rows == [Row(Some("generation-i"), [], ["bulbasaur"], ["ivysaur"]),
                      Row(Some("generation-ii"), [], [], ["chikorita"])]
    ensures GenderDataSet("female", rows).data == [1, 0]
    ensures GenderDataSet("male", rows).data == [1, 1]
    ensures GenderDataSet("genderless", rows).data == [0, 0]
  {
  }

  /** The generation details of the example below. */
  const ExampleGenerations: seq<Option<GenerationDetail>> :=
    [Some(GenerationDetail("generation-i", ["bulbasaur", "ivysaur"])),
     Some(GenerationDetail("generation-ii", ["chikorita"]))]

  lemma ExampleLabels()
    ensures SuccessfulNames(ExampleGenerations) == ["generation-i", "generation-ii"]
  {
    var gens := ExampleGenerations;
    assert gens == [gens[0]] + [gens[1]];
    SuccessfulNamesAppend([gens[0]], [gens[1]]);
    SuccessfulNamesSingle(gens[0]);
    SuccessfulNamesSingle(gens[1]);
  }

  /** Two generations, three genders: labels are the raw generation names. */
  lemma GenderChartExample()
    ensures
      var c := GenderChart(Some(ExampleGenders), Some(ExampleGenerations)).value;
      && c.labels == ["generation-i", "generation-ii"]
      && |c.datasets| == 3
      && c.datasets[0].seriesLabel == "female" && c.datasets[0].data == [1, 0]
      && c.datasets[1].seriesLabel == "male" && c.datasets[1].data == [1, 1]
      && c.datasets[2].seriesLabel == "genderless" && c.datasets[2].data == [0, 0]
  {
    var b := GenderBuckets(Some(ExampleGenders));
    ExampleBuckets();
    var rows := CrossTab(ExampleGenerations, b);
    ExampleCrossTab(b);
    ExampleDataSets(rows);
    ExampleLabels();
    ExampleChart(Some(ExampleGenders), ExampleGenerations, b, rows);
  }

  lemma ExampleCrossTab(b: Buckets)
    requires b == Buckets(["female", "male", "genderless"], ["bulbasaur"], ["ivysaur", "chikorita"], [])
    ensures CrossTab(ExampleGenerations, b)
         == [Row(Some("generation-i"), [], ["bulbasaur"], ["ivysaur"]),
             Row(Some("generation-ii"), [], [], ["chikorita"])]
  {
    ExampleRows(b);
    var gens := ExampleGenerations;
    assert CrossTab(gens, b) == [RowOf(gens[0], b), RowOf(gens[1], b)];
  }

  lemma ExampleChart(genders: Option<seq<Option<GenderDetail>>>, gens: seq<Option<GenerationDetail>>, b: Buckets, rows: seq<Row>)
    requires b == GenderBuckets(genders) && b.genders == ["female", "male", "genderless"]
    requires rows == CrossTab(gens, b)
    ensures GenderChart(genders, Some(gens))
         == Some(ChartData(SuccessfulNames(gens),
                   [GenderDataSet("female", rows), GenderDataSet("male", rows), GenderDataSet("genderless", rows)]))
  {
    var sets := seq(|b.genders|, j requires 0 <= j < |b.genders| => GenderDataSet(b.genders[j], rows));
    assert sets == [GenderDataSet("female", rows), GenderDataSet("male", rows), GenderDataSet("genderless", rows)];
  }
}
