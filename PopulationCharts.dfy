/** The shaping `map` stages of `getPokemonTypesData` and
    `getPokemonGenerationsData`: drop records without members, sort by member
    count, project to index-aligned labels and data, attach one generated
    colour per bar. The input is what `forkJoin` emits (None when a request
    failed and `catchError` replaced the stream by `of(null)`). */
module PopulationCharts {
  import opened Wrappers
  import opened MiscFunctions
  import opened ChartTypes
  import opened Palette
  import opened Ranking

  const TypesTitle: string := "Pokémons of this type"
  const GenerationsTitle: string := "Pokémons of this generation"

  /** `.filter(({ pokemons }) => pokemons.length)` */
  function NonEmpty(s: seq<Detail>): seq<Detail>
  {
    if s == [] then []
    else if s[0].memberCount > 0 then [s[0]] + NonEmpty(s[1..])
    else NonEmpty(s[1..])
  }

  /** `sortRes.map((data) => data.pokemons.length)` */
  function Counts(r: seq<Detail>): (data: seq<nat>)
  {
    seq(|r|, i requires 0 <= i < |r| => r[i].memberCount)
  }

  /** The chart value both stages return: one dataset with `borderWidth: 2`
      and the colours of `generateColors(data.length)`. */
  function Series(labels: seq<string>, data: seq<nat>, title: string): ChartData
  {
    var colors := PaletteOf(|data|);
    ChartData(labels, [DataSet(title, data, colors.backgroundColor, Some(colors.borderColor), Some(2))])
  }

  /** `getPokemonTypesData`: descending by count, labels by `upperCaseFirstLetter`. */
  function TypesChart(joined: Option<seq<Detail>>): Option<ChartData>
  {
    match joined
    case None => None
    case Some(details) =>
      var ranked := SortBy(Descending, NonEmpty(details));
      Some(Series(seq(|ranked|, i requires 0 <= i < |ranked| => UpperCaseFirstLetter(ranked[i].name)),
                  Counts(ranked), TypesTitle))
  }

  /** `sortRes.map((data) => this.formatGenerationString(data.name))`: the
      first name without a `-` throws, which the stage's `catchError` turns into null. */
  function FormatAll(r: seq<Detail>): (labels: Option<seq<string>>)
    ensures labels.Some? <==> forall i :: 0 <= i < |r| ==> '-' in r[i].name
    ensures labels.Some? ==> |labels.value| == |r|
    ensures labels.Some? ==> forall i :: 0 <= i < |r| ==>
      FormatGenerationString(r[i].name) == Some(labels.value[i])
  {
    if r == [] then Some([])
    else
      FormatGenerationStringFailsIffNoHyphen(r[0].name);
      match FormatGenerationString(r[0].name)
      case None => None
      case Some(head) =>
        match FormatAll(r[1..])
        case None => None
        case Some(tail) => Some([head] + tail)
  }

  /** `getPokemonGenerationsData`: ascending by count, labels by `formatGenerationString`. */
  function GenerationsChart(joined: Option<seq<Detail>>): Option<ChartData>
  {
    match joined
    case None => None
    case Some(details) =>
      var ranked := SortBy(Ascending, NonEmpty(details));
      match FormatAll(ranked)
      case None => None
      case Some(labels) => Some(Series(labels, Counts(ranked), GenerationsTitle))
  }

  /** The label a generation bar gets once formatting has succeeded. */
  function GenerationLabel(name: string): string
  {
    match FormatGenerationString(name)
    case Some(formatted) => formatted
    case None => name
  }

  /** (label, count) for each record: what a bar shows. */
  function Entries(labelOf: string -> string, s: seq<Detail>): (e: seq<(string, nat)>)
    ensures |e| == |s|
  {
    seq(|s|, i requires 0 <= i < |s| => (labelOf(s[i].name), s[i].memberCount))
  }

  /** The bars of a chart as (label, count) pairs, index by index. */
  function Bars(labels: seq<string>, data: seq<nat>): seq<(string, nat)>
    requires |labels| == |data|
  {
    seq(|labels|, i requires 0 <= i < |labels| => (labels[i], data[i]))
  }

  /** The bars with a given count, in chart order. */
  function BarsWithCount(bars: seq<(string, nat)>, n: nat): seq<(string, nat)>
  {
    if bars == [] then []
    else if bars[0].1 == n then [bars[0]] + BarsWithCount(bars[1..], n)
    else BarsWithCount(bars[1..], n)
  }

  /** What a single-list chart promises about the kept records `kept`: one
      dataset titled `title`; labels, data and both colour lists of one
      length; data in `dir` order; the bars a permutation of the kept
      records' (label, count) pairs; bars with equal counts in listing order. */
  ghost predicate Presents(c: ChartData, dir: Direction, kept: seq<Detail>, labelOf: string -> string, title: string)
  {
    && |c.datasets| == 1
    && var ds := c.datasets[0];
    && ds.seriesLabel == title
    && |c.labels| == |kept| && |ds.data| == |kept|
    && ds.backgroundColor == PaletteOf(|kept|).backgroundColor
    && ds.borderColor == Some(PaletteOf(|kept|).borderColor)
    && ds.borderWidth == Some(2)
    && (forall i, j :: 0 <= i < j < |ds.data| ==> InOrder(dir, ds.data[i], ds.data[j]))
    && multiset(Bars(c.labels, ds.data)) == multiset(Entries(labelOf, kept))
    && (forall n: nat :: BarsWithCount(Bars(c.labels, ds.data), n) == Entries(labelOf, WithCount(kept, n)))
  }

  /** Every record without members is dropped, every other kept as often as it occurs. */
  lemma {:induction false} NonEmptyKeepsMembers(s: seq<Detail>)
    ensures forall d :: multiset(NonEmpty(s))[d] == if d.memberCount > 0 then multiset(s)[d] else 0
  {
    if s != [] {
      NonEmptyKeepsMembers(s[1..]);
      assert s == [s[0]] + s[1..];
    }
  }

  /** The filter keeps listing order: per count, the kept records are exactly the listed ones. */
  lemma {:induction false} NonEmptyKeepsOrder(s: seq<Detail>, n: nat)
    ensures WithCount(NonEmpty(s), n) == if n > 0 then WithCount(s, n) else []
  {
    if s != [] {
      NonEmptyKeepsOrder(s[1..], n);
    }
  }

  lemma EntriesCons(labelOf: string -> string, x: Detail, t: seq<Detail>)
    ensures Entries(labelOf, [x] + t) == [(labelOf(x.name), x.memberCount)] + Entries(labelOf, t)
  {
  }

  lemma {:induction false} EntriesInsert(dir: Direction, labelOf: string -> string, x: Detail, t: seq<Detail>)
    ensures multiset(Entries(labelOf, Insert(dir, x, t)))
         == multiset(Entries(labelOf, t)) + multiset{(labelOf(x.name), x.memberCount)}
  {
    if t == [] || Compare(dir, x, t[0]) <= 0 {
      EntriesCons(labelOf, x, t);
    } else {
      EntriesInsert(dir, labelOf, x, t[1..]);
      EntriesCons(labelOf, t[0], Insert(dir, x, t[1..]));
      EntriesCons(labelOf, t[0], t[1..]);
      assert t == [t[0]] + t[1..];
    }
  }

  /** Sorting permutes the (label, count) pairs. */
  lemma {:induction false} EntriesSortBy(dir: Direction, labelOf: string -> string, s: seq<Detail>)
    ensures multiset(Entries(labelOf, SortBy(dir, s))) == multiset(Entries(labelOf, s))
  {
    if s != [] {
      EntriesSortBy(dir, labelOf, s[1..]);
      EntriesInsert(dir, labelOf, s[0], SortBy(dir, s[1..]));
      EntriesCons(labelOf, s[0], s[1..]);
      assert s == [s[0]] + s[1..];
    }
  }

  lemma {:induction false} EntriesWithCount(labelOf: string -> string, r: seq<Detail>, n: nat)
    ensures BarsWithCount(Entries(labelOf, r), n) == Entries(labelOf, WithCount(r, n))
  {
    if r != [] {
      EntriesWithCount(labelOf, r[1..], n);
      EntriesCons(labelOf, r[0], r[1..]);
      assert r == [r[0]] + r[1..];
      if r[0].memberCount == n {
        EntriesCons(labelOf, r[0], WithCount(r[1..], n));
      }
    }
  }

  /** A series built from a ranking of `kept` presents `kept`. */
  lemma SeriesPresents(dir: Direction, kept: seq<Detail>, labelOf: string -> string, labels: seq<string>, title: string)
    requires |labels| == |SortBy(dir, kept)|
    requires forall i :: 0 <= i < |labels| ==> labels[i] == labelOf(SortBy(dir, kept)[i].name)
    ensures Presents(Series(labels, Counts(SortBy(dir, kept)), title), dir, kept, labelOf, title)
  {
    var ranked := SortBy(dir, kept);
    var c := Series(labels, Counts(ranked), title);
    var data := c.datasets[0].data;
    SortByLength(dir, kept);
    SortBySorted(dir, kept);
    forall i, j | 0 <= i < j < |data|
      ensures InOrder(dir, data[i], data[j])
    {
      CompareInOrder(dir, ranked[i], ranked[j]);
    }
    assert Bars(labels, data) == Entries(labelOf, ranked);
    EntriesSortBy(dir, labelOf, kept);
    forall n: nat
      ensures BarsWithCount(Bars(labels, data), n) == Entries(labelOf, WithCount(kept, n))
    {
      EntriesWithCount(labelOf, ranked, n);
      SortByStable(dir, kept, n);
    }
  }

  /** The types chart: null exactly when the join failed; otherwise the
      non-empty types, most populous first, each labelled by its capitalised name. */
  lemma TypesChartSpec(joined: Option<seq<Detail>>)
    ensures TypesChart(joined).None? <==> joined.None?
    ensures joined.Some? ==>
      Presents(TypesChart(joined).value, Descending, NonEmpty(joined.value), UpperCaseFirstLetter, TypesTitle)
  {
    if joined.Some? {
      var kept := NonEmpty(joined.value);
      var ranked := SortBy(Descending, kept);
      SortByLength(Descending, kept);
      SeriesPresents(Descending, kept, UpperCaseFirstLetter,
        seq(|ranked|, i requires 0 <= i < |ranked| => UpperCaseFirstLetter(ranked[i].name)), TypesTitle);
    }
  }

  /** Whether every kept record's name contains a `-`. */
  ghost predicate AllHyphenated(kept: seq<Detail>)
  {
    forall i :: 0 <= i < |kept| ==> '-' in kept[i].name
  }

  lemma PermutationKeepsHyphens(r: seq<Detail>, s: seq<Detail>)
    requires multiset(r) == multiset(s)
    ensures AllHyphenated(r) <==> AllHyphenated(s)
  {
    forall i | 0 <= i < |r| ensures r[i] in multiset(s) { assert r[i] in multiset(r); }
    forall i | 0 <= i < |s| ensures s[i] in multiset(r) { assert s[i] in multiset(s); }
  }

  /** The generations chart: null when the join failed or some non-empty
      generation's name has no `-`; otherwise the non-empty generations, least
      populous first, each labelled by its formatted name. */
  lemma GenerationsChartSpec(joined: Option<seq<Detail>>)
    ensures GenerationsChart(joined).Some? <==> joined.Some? && AllHyphenated(NonEmpty(joined.value))
    ensures GenerationsChart(joined).Some? ==>
      Presents(GenerationsChart(joined).value, Ascending, NonEmpty(joined.value), GenerationLabel, GenerationsTitle)
  {
    if joined.Some? {
      var kept := NonEmpty(joined.value);
      var ranked := SortBy(Ascending, kept);
      SortByPermutes(Ascending, kept);
      PermutationKeepsHyphens(ranked, kept);
      var labels := FormatAll(ranked);
      if labels.Some? {
        forall i | 0 <= i < |labels.value|
          ensures labels.value[i] == GenerationLabel(ranked[i].name)
        {
        }
        SeriesPresents(Ascending, kept, GenerationLabel, labels.value, GenerationsTitle);
      }
    }
  }

  /** fire (52 members), water (105) and bug (none): bug is dropped and water comes first. */
  lemma TypesChartExample()
    ensures
      var c := TypesChart(Some([Detail("fire", 52), Detail("water", 105), Detail("bug", 0)])).value;
      c.labels == ["Water", "Fire"] && c.datasets[0].data == [105, 52]
  {
    var s := [Detail("fire", 52), Detail("water", 105), Detail("bug", 0)];
    assert NonEmpty(s) == [Detail("fire", 52), Detail("water", 105)];
    var fire, water := Detail("fire", 52), Detail("water", 105);
    assert SortBy(Descending, [water]) == [water];
    assert [fire, water][1..] == [water];
    assert Insert(Descending, fire, [water]) == [water, fire];
    assert SortBy(Descending, NonEmpty(s)) == [water, fire];
    assert UpperCaseFirstLetter("water") == "Water" by {
      assert "water"[..1] == "w" && "water"[1..] == "ater";
      LowerNoCapitals("ater");
    }
    assert UpperCaseFirstLetter("fire") == "Fire" by {
      assert "fire"[..1] == "f" && "fire"[1..] == "ire";
      LowerNoCapitals("ire");
    }
  }
}
