/** The year argument and the year filter shared by the by-year scripts. */
module Cli {
  import opened Common
  import opened Text
  import opened Seqs

  /** A missing argument, or one that is not exactly four decimal digits, is rejected;
      otherwise the argument is the year. */
  function YearArgument(arg: Option<string>): (year: Option<string>)
    ensures year.Some? <==> arg.Some? && |arg.value| == 4 && forall i :: 0 <= i < 4 ==> IsDigit(arg.value[i])
    ensures year.Some? ==> year == arg
  {
    match arg
    case None => None
    case Some(s) => if s != "" && MatchesDigits(s, 4) then Some(s) else None
  }

  /** The items whose name contains the year, in snapshot order. */
  function NamedInYear(items: seq<Tournament>, year: string): (r: seq<Tournament>)
    ensures forall t :: t in r ==> t in items && Contains(t.name, year)
    ensures forall i :: 0 <= i < |items| && Contains(items[i].name, year) ==> items[i] in r
  {
    FilterMembers(items, (t: Tournament) => Contains(t.name, year));
    Filter(items, (t: Tournament) => Contains(t.name, year))
  }

  /** Selecting by year keeps the input order: it distributes over concatenation. */
  lemma NamedInYearConcat(a: seq<Tournament>, b: seq<Tournament>, year: string)
    ensures NamedInYear(a + b, year) == NamedInYear(a, year) + NamedInYear(b, year)
  {
    FilterConcat(a, b, (t: Tournament) => Contains(t.name, year));
  }
}
