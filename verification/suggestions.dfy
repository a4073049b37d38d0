/** The suggested questions built from the column names of the loaded table. */
module Suggestions {
  import opened Seqs

  /** At most this many suggestions are shown. */
  const MaxSuggestions: nat := 5

  /**
   * The three question templates for column `a` and a later column `b`. They
   * never coincide (each opens with a different letter), so every visited pair
   * contributes three different candidates.
   */
  function Templates(a: string, b: string): (r: seq<string>)
    ensures |r| == 3 && NoDuplicates(r)
  {
    var r := ["Average " + a + " by " + b, "Top 5 " + b + " by " + a, "Distribution of " + a];
    assert r[0][0] == 'A' && r[1][0] == 'T' && r[2][0] == 'D';
    r
  }

  /** The nested loops visit (i, j) for a table with `n` columns: i among the first three, j among the next three after i. */
  predicate IsPair(n: int, i: int, j: int)
  {
    0 <= i < Min(3, n) && i < j < Min(i + 4, n)
  }

  /** `q` is one of the template strings for some visited pair of columns. */
  ghost predicate Generated(cols: seq<string>, q: string)
  {
    exists i, j :: IsPair(|cols|, i, j) && q in Templates(cols[i], cols[j])
  }

  /** `q` comes from a pair visited strictly before (i, j) in loop order. */
  ghost predicate GeneratedBefore(cols: seq<string>, q: string, i: int, j: int)
  {
    exists i', j' :: IsPair(|cols|, i', j') && (i' < i || (i' == i && j' < j)) &&
                     q in Templates(cols[i'], cols[j'])
  }

  /**
   * The nested loops that collect every template string for every visited
   * pair of columns (duplicates included, as the list is built).
   */
  method CandidateQuestions(cols: seq<string>) returns (qs: seq<string>)
    ensures forall q :: q in qs <==> Generated(cols, q)
    ensures |cols| < 2 ==> qs == []
  {
    qs := [];
    var i := 0;
    while i < Min(3, |cols|)
      invariant 0 <= i <= Min(3, |cols|)
      invariant forall q :: q in qs <==> GeneratedBefore(cols, q, i, i + 1)
      invariant |cols| < 2 ==> qs == []
    {
      var j := i + 1;
      while j < Min(i + 4, |cols|)
        invariant i + 1 <= j <= Min(i + 4, |cols|)
        invariant forall q :: q in qs <==> GeneratedBefore(cols, q, i, j)
        invariant |cols| < 2 ==> qs == []
      {
        StepPair(cols, i, j);
        qs := qs + Templates(cols[i], cols[j]);
        j := j + 1;
      }
      StepRow(cols, i, j, i + 1, i + 2);
      i := i + 1;
    }
    forall q | Generated(cols, q) ensures GeneratedBefore(cols, q, i, i + 1) {
      var i', j' :| IsPair(|cols|, i', j') && q in Templates(cols[i'], cols[j']);
      assert IsPair(|cols|, i', j') && (i' < i || (i' == i && j' < i + 1));
    }
  }

  /** Visiting (i, j) adds exactly its three templates to what was generated before. */
  lemma StepPair(cols: seq<string>, i: int, j: int)
    requires IsPair(|cols|, i, j)
    ensures forall q :: GeneratedBefore(cols, q, i, j + 1) <==>
                        GeneratedBefore(cols, q, i, j) || q in Templates(cols[i], cols[j])
  {
    forall q | GeneratedBefore(cols, q, i, j + 1)
      ensures GeneratedBefore(cols, q, i, j) || q in Templates(cols[i], cols[j])
    {
      var i', j' :| IsPair(|cols|, i', j') && (i' < i || (i' == i && j' < j + 1)) &&
                    q in Templates(cols[i'], cols[j']);
      if i' < i || j' < j {
        assert IsPair(|cols|, i', j') && (i' < i || (i' == i && j' < j));
      }
    }
    forall q | q in Templates(cols[i], cols[j]) ensures GeneratedBefore(cols, q, i, j + 1) {
      assert IsPair(|cols|, i, j) && (i < i || (i == i && j < j + 1));
    }
  }

  /** Finishing row i of the inner loop is the same point as starting row i + 1. */
  lemma StepRow(cols: seq<string>, i: int, end: int, next: int, start: int)
    requires 0 <= i < Min(3, |cols|) && end == Min(i + 4, |cols|)
    requires next == i + 1 && start == i + 2
    ensures forall q :: GeneratedBefore(cols, q, i, end) <==> GeneratedBefore(cols, q, next, start)
  {
    forall q | GeneratedBefore(cols, q, next, start)
      ensures GeneratedBefore(cols, q, i, end)
    {
      var i', j' :| IsPair(|cols|, i', j') && (i' < next || (i' == next && j' < start)) &&
                    q in Templates(cols[i'], cols[j']);
      assert IsPair(|cols|, i', j') && (i' < i || (i' == i && j' < end));
    }
  }

  /**
   * `list(set(suggested_questions))[:5]`: a duplicate-free selection of the
   * candidates in an unspecified order, as many as fit in five.
   */
  method Suggest(cols: seq<string>) returns (qs: seq<string>)
    ensures |qs| <= MaxSuggestions
    ensures NoDuplicates(qs)
    ensures forall q :: q in qs ==> Generated(cols, q)
    ensures forall q :: Generated(cols, q) && q !in qs ==> |qs| == MaxSuggestions
    ensures qs == [] <==> |cols| < 2
  {
    var candidates := CandidateQuestions(cols);
    var pool := set q | q in candidates;
    qs := [];
    while |qs| < MaxSuggestions && pool != {}
      invariant |qs| <= MaxSuggestions
      invariant NoDuplicates(qs)
      invariant forall q :: q in qs ==> q in candidates && q !in pool
      invariant forall q :: q in pool ==> q in candidates
      invariant forall q :: q in candidates ==> q in qs || q in pool
      invariant candidates == [] ==> qs == []
      decreases |pool|
    {
      var q :| q in pool;
      qs := qs + [q];
      pool := pool - {q};
    }
    if |cols| >= 2 {
      assert IsPair(|cols|, 0, 1) && Templates(cols[0], cols[1])[0] in Templates(cols[0], cols[1]);
      assert Generated(cols, Templates(cols[0], cols[1])[0]);
    }
  }

  /** A table with fewer than two columns has no pair of columns, so no candidate question. */
  lemma NothingGeneratedBelowTwo(cols: seq<string>)
    requires |cols| < 2
    ensures forall q :: !Generated(cols, q)
  {
    assert forall i, j :: !IsPair(|cols|, i, j);
  }

  /** The suggestions for a two-column table [City, Sales]: "Top 5 Sales by City" is one, "Top 5 City by Sales" is not. */
  lemma CitySalesExample()
    ensures Generated(["City", "Sales"], "Top 5 Sales by City")
    ensures !Generated(["City", "Sales"], "Top 5 City by Sales")
  {
    var cols := ["City", "Sales"];
    var t := Templates(cols[0], cols[1]);
    assert t[1] == "Top 5 " + "Sales" + " by " + "City" == "Top 5 Sales by City";
    assert IsPair(|cols|, 0, 1) && "Top 5 Sales by City" in t;
    assert "Top 5 City by Sales"[6] != t[1][6];
    assert "Top 5 City by Sales" !in t;
  }
}
