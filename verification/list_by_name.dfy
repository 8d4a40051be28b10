/** scripts/list-by-name.js: the tournaments whose name contains a query, ignoring case. */
module ListByName {
  import opened Common
  import opened Text
  import opened Seqs
  import opened Listing

  /** The query: the command-line argument lower-cased, or the empty string without one. */
  function Query(arg: Option<string>): (q: string)
    ensures arg.None? ==> q == ""
    ensures arg.Some? ==> q == ToLower(arg.value)
    ensures forall i :: 0 <= i < |q| ==> !('A' <= q[i] <= 'Z')
  {
    ToLower(arg.GetOr(""))
  }

  /** The items whose lower-cased name contains the query, in snapshot order. */
  function Matching(items: seq<Tournament>, q: string): (r: seq<Tournament>)
    ensures forall t :: t in r ==> t in items && Contains(ToLower(t.name), q)
    ensures forall i :: 0 <= i < |items| && Contains(ToLower(items[i].name), q) ==> items[i] in r
  {
    FilterMembers(items, (t: Tournament) => Contains(ToLower(t.name), q));
    Filter(items, (t: Tournament) => Contains(ToLower(t.name), q))
  }

  /** The script run on the command-line argument `arg` over the snapshot's `items`. */
  function List(arg: Option<string>, items: seq<Tournament>): (l: Printout)
    ensures l.found == |Matching(items, Query(arg))|
    ensures |l.lines| == Min(DisplayCap, l.found)
    ensures forall i :: 0 <= i < |l.lines| ==> l.lines[i] == DisplayLine(Matching(items, Query(arg))[i])
  {
    Report(Matching(items, Query(arg)))
  }

  /** Without a query every item matches, in the snapshot's order. */
  lemma NoQueryListsEverything(items: seq<Tournament>)
    ensures Matching(items, Query(None)) == items
    ensures List(None, items).found == |items|
  {
    ContainsEmpty("");
    forall i | 0 <= i < |items| ensures Contains(ToLower(items[i].name), "") {
      ContainsEmpty(ToLower(items[i].name));
    }
    FilterKeepsAll(items, (t: Tournament) => Contains(ToLower(t.name), ""));
  }

  /** A query and any re-capitalisation of it list the same thing. */
  lemma QueryCaseIgnored(q1: string, q2: string, items: seq<Tournament>)
    requires ToLower(q1) == ToLower(q2)
    ensures List(Some(q1), items) == List(Some(q2), items)
  {
    assert Query(Some(q1)) == Query(Some(q2));
  }

  /** An item matches iff the query, lower-cased, occurs somewhere in its name, lower-cased. */
  lemma MatchIgnoresCase(arg: Option<string>, items: seq<Tournament>, t: Tournament)
    requires t in items
    ensures t in Matching(items, Query(arg)) <==> exists i :: OccursAt(ToLower(t.name), Query(arg), i)
  {
    var k :| 0 <= k < |items| && items[k] == t;
    var q := Query(arg);
    if Contains(ToLower(t.name), q) {
      assert items[k] in Matching(items, q);
      assert t in Matching(items, q);
      assert exists i :: OccursAt(ToLower(t.name), q, i);
    } else {
      assert forall i :: !OccursAt(ToLower(t.name), q, i);
      assert t !in Matching(items, q);
    }
  }
}
