/** scripts/list-by-year.js: the tournaments whose name mentions a given year. */
module ListByYear {
  import opened Common
  import opened Text
  import opened Cli
  import opened Listing

  const Usage: string := "❌ Please provide a year, e.g.: node list-by-year.js 2023"

  /** The script run on the command-line argument `arg` over the snapshot's `items`. */
  function List(arg: Option<string>, items: seq<Tournament>): (r: Result<Printout>)
    ensures r.UsageError? <==> YearArgument(arg).None?
    ensures r.Ok? ==> r.value.found == |NamedInYear(items, arg.value)|
    ensures r.Ok? ==> |r.value.lines| == Min(DisplayCap, r.value.found)
    ensures r.Ok? ==> forall i :: 0 <= i < |r.value.lines| ==>
      r.value.lines[i] == DisplayLine(NamedInYear(items, arg.value)[i])
  {
    match YearArgument(arg)
    case None => UsageError(Usage)
    case Some(year) => Ok(Report(NamedInYear(items, year)))
  }

  /** Every printed line is that of an item whose name contains the year. */
  lemma PrintedAreMatches(arg: Option<string>, items: seq<Tournament>, i: nat)
    requires List(arg, items).Ok? && i < |List(arg, items).value.lines|
    ensures exists t :: t in items && Contains(t.name, arg.value) && List(arg, items).value.lines[i] == DisplayLine(t)
  {
    var matches := NamedInYear(items, arg.value);
    assert matches[i] in matches;
  }
}
