/** The console report of the listing scripts: the number found, then at most 50 lines. */
module Listing {
  import opened Common

  /** How many results are printed. */
  const DisplayCap: nat := 50

  /** What a listing script reports: the full count and the printed lines. */
  datatype Printout = Printout(found: nat, lines: seq<string>)

  /** The printed line of an item: its id, two spaces, its name. Both can be read back. */
  function DisplayLine(t: Tournament): (line: string)
    ensures |line| == |t.id| + 2 + |t.name|
    ensures line[..|t.id|] == t.id && line[|t.id| + 2..] == t.name
    ensures line[|t.id|..|t.id| + 2] == "  "
  {
    t.id + "  " + t.name
  }

  function DisplayLines(ts: seq<Tournament>): (lines: seq<string>)
    ensures |lines| == |ts|
    ensures forall i :: 0 <= i < |ts| ==> lines[i] == DisplayLine(ts[i])
  {
    if ts == [] then [] else [DisplayLine(ts[0])] + DisplayLines(ts[1..])
  }

  /** The count of all results, and one line for each of `results.slice(0, 50)`. */
  function Report(results: seq<Tournament>): (l: Printout)
    ensures l.found == |results|
    ensures |l.lines| == Min(DisplayCap, |results|)
    ensures forall i :: 0 <= i < |l.lines| ==> l.lines[i] == DisplayLine(results[i])
  {
    Printout(|results|, DisplayLines(results[..Min(DisplayCap, |results|)]))
  }
}
