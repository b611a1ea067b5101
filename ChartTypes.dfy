/** The chart shapes of src/app/dashboard/types/charts.type.ts. Colours are
    kept as their CSS components instead of `hsla(...)` strings. */
module ChartTypes {
  import opened Wrappers

  /** A CSS colour: `hsla(h, s%, l%, a)`, `hsl(h, s%, l%)`, or the
      `undefined` that an unknown key of a colour table yields. */
  datatype Color =
    | Hsla(hue: real, saturation: nat, lightness: nat, alpha: real)
    | Hsl(hue: real, saturation: nat, lightness: nat)
    | Undefined

  /** `DataSet` (its `label` is `seriesLabel`, since `label` is a Dafny keyword);
      the optional `borderColor` and `borderWidth` are Options. */
  datatype DataSet = DataSet(
    seriesLabel: string,
    data: seq<nat>,
    backgroundColor: seq<Color>,
    borderColor: Option<seq<Color>>,
    borderWidth: Option<nat>)

  /** `ChartData` */
  datatype ChartData = ChartData(labels: seq<string>, datasets: seq<DataSet>)
}
