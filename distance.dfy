/**
 * Distance resolution: branch names are translated to the station codes of
 * the mileage chart, and the chart is read at the pair of codes.
 */
module Distance {
  import opened Wrappers

  /** The mileage chart: distance from the row's code to the column's code. */
  type Chart = map<(string, string), real>

  /** conv_dict: branch name as the time clock writes it, to chart code. */
  const ConvTable: map<string, string> := map[
    "Main Library" := "MAIN",
    "Birmingham Branch" := "BIRM",
    "Heatherdowns Branch" := "HED",
    "Holland Branch" := "HOLL",
    "Kent Branch" := "KENT",
    "Mobile Services" := "KINGRD",
    "King Road Branch" := "KINGRD",
    "Lagrange Branch" := "LAG",
    "Locke Branch" := "LOCKE",
    "Maumee Branch" := "MAUM",
    "Mott Branch" := "MOTT",
    "Oregon Branch" := "OREG",
    "Friends of the Library" := "WAREHOUSE",
    "Point Place Branch" := "PTPL",
    "Reynolds Corners Branch" := "RC",
    "Sanger Branch" := "SANG",
    "South Branch" := "SOUTH",
    "Sylvania Branch" := "SYLV",
    "Toledo Heights Branch" := "TH",
    "Washington Branch" := "WASH",
    "Waterville Branch" := "WATV",
    "West Toledo Branch" := "WTOL",
    "Cherry Street Mission" := "MAIN"]

  /**
   * get_mileage: both names must be known, tried from first to second, and
   * the chart must hold their pair of codes; each failure is a KeyError.
   */
  function GetMileage(chart: Chart, fromBranch: string, toBranch: string): (r: Result<real, RunError>)
    ensures r.Ok? <==> fromBranch in ConvTable && toBranch in ConvTable
                       && (ConvTable[fromBranch], ConvTable[toBranch]) in chart
    ensures r.Ok? ==> r.value == chart[(ConvTable[fromBranch], ConvTable[toBranch])]
    ensures fromBranch !in ConvTable ==> r == Err(UnknownBranch(fromBranch))
    ensures fromBranch in ConvTable && toBranch !in ConvTable ==> r == Err(UnknownBranch(toBranch))
    ensures fromBranch in ConvTable && toBranch in ConvTable
            && (ConvTable[fromBranch], ConvTable[toBranch]) !in chart
            ==> r == Err(MissingDistance(ConvTable[fromBranch], ConvTable[toBranch]))
  {
    if fromBranch !in ConvTable then Err(UnknownBranch(fromBranch))
    else if toBranch !in ConvTable then Err(UnknownBranch(toBranch))
    else
      var key := (ConvTable[fromBranch], ConvTable[toBranch]);
      if key !in chart then Err(MissingDistance(key.0, key.1)) else Ok(chart[key])
  }

  /** Names that share a code are interchangeable in every lookup, on either side. */
  lemma SharedCodeSameDistance(chart: Chart, a: string, b: string, other: string)
    requires a in ConvTable && b in ConvTable && ConvTable[a] == ConvTable[b]
    ensures GetMileage(chart, a, other) == GetMileage(chart, b, other)
    ensures GetMileage(chart, other, a) == GetMileage(chart, other, b)
  {
  }

  /**
   * The table is not injective: the mobile-services van is charted at King
   * Road and the mission at the main library.
   */
  lemma SharedCodes()
    ensures ConvTable["Mobile Services"] == ConvTable["King Road Branch"] == "KINGRD"
    ensures ConvTable["Cherry Street Mission"] == ConvTable["Main Library"] == "MAIN"
  {
  }

  /** Moving between two names of one code still reads the chart, at its diagonal. */
  lemma AliasLookupIsDiagonal(chart: Chart)
    ensures GetMileage(chart, "Mobile Services", "King Road Branch")
         == (if ("KINGRD", "KINGRD") in chart then Ok(chart[("KINGRD", "KINGRD")])
             else Err(MissingDistance("KINGRD", "KINGRD")))
  {
  }
}
