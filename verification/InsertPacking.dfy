/**
  Extended INSERT: dump_table packs rows into statements, greedily, under a byte limit. A row is
  the text of its tuple.
*/
module InsertPacking {

  type Rows = seq<string>

  // ---- Splits of the rows into statements ----

  function Sum(rows: Rows): nat {
    if rows == [] then 0 else Sum(rows[..|rows| - 1]) + 2 + |rows[|rows| - 1]|
  }

  /** What a statement is counted as: the pattern, four more, and each row with its separator. */
  function Cost(pat: string, group: Rows): nat {
    |pat| + 4 + Sum(group)
  }

  function Flatten(groups: seq<Rows>): Rows {
    if groups == [] then [] else Flatten(groups[..|groups| - 1]) + groups[|groups| - 1]
  }

  ghost predicate Fits(group: Rows, pat: string, limit: nat) {
    group != [] && (|group| > 1 ==> Cost(pat, group) < limit)
  }

  /** The rows, in order, in groups of at least one row; a group of more stays below the limit. */
  ghost predicate IsSplit(groups: seq<Rows>, rows: Rows, pat: string, limit: nat) {
    Flatten(groups) == rows && forall i :: 0 <= i < |groups| ==> Fits(groups[i], pat, limit)
  }

  /** Fewer groups; or as many, and a last one that is not longer. */
  ghost predicate Ahead(groups: seq<Rows>, others: seq<Rows>) {
    || |groups| < |others|
    || (|groups| == |others| && (groups != [] ==> |groups[|groups| - 1]| <= |others[|others| - 1]|))
  }

  ghost predicate Best(groups: seq<Rows>, rows: Rows, pat: string, limit: nat) {
    && IsSplit(groups, rows, pat, limit)
    && forall others :: IsSplit(others, rows, pat, limit) ==> Ahead(groups, others)
  }

  /** The split with one more row: in the last group if it fits there, in a new one otherwise. */
  function Placed(groups: seq<Rows>, row: string, pat: string, limit: nat): seq<Rows> {
    var n := |groups|;
    if n > 0 && Cost(pat, groups[n - 1]) + 2 + |row| < limit then groups[..n - 1] + [groups[n - 1] + [row]]
    else groups + [[row]]
  }

  /** The split that placing the rows one by one gives. */
  function Greedy(rows: Rows, pat: string, limit: nat): seq<Rows> {
    if rows == [] then [] else Placed(Greedy(rows[..|rows| - 1], pat, limit), rows[|rows| - 1], pat, limit)
  }

  // ---- What is written ----

  /** A statement without its end. */
  function Opened(pat: string, group: Rows): string
    requires group != []
  {
    if |group| == 1 then pat + group[0] else Opened(pat, group[..|group| - 1]) + ",\n" + group[|group| - 1]
  }

  function Statement(pat: string, group: Rows): string
    requires group != []
  {
    Opened(pat, group) + ";\n"
  }

  ghost predicate NonEmpty(groups: seq<Rows>) {
    forall i :: 0 <= i < |groups| ==> groups[i] != []
  }

  function Render(pat: string, groups: seq<Rows>): string
    requires NonEmpty(groups)
  {
    if groups == [] then "" else Render(pat, groups[..|groups| - 1]) + Statement(pat, groups[|groups| - 1])
  }

  /** What is written before the last statement is ended. */
  function Pending(pat: string, groups: seq<Rows>): string
    requires NonEmpty(groups)
  {
    if groups == [] then "" else Render(pat, groups[..|groups| - 1]) + Opened(pat, groups[|groups| - 1])
  }

  // ---- The greedy split is the best one ----

  lemma {:induction false} SumAppend(rows: Rows, row: string)
    ensures Sum(rows + [row]) == Sum(rows) + 2 + |row|
  {
    assert (rows + [row])[..|rows|] == rows;
  }

  lemma {:induction false} FlattenAppend(groups: seq<Rows>, group: Rows)
    ensures Flatten(groups + [group]) == Flatten(groups) + group
  {
    assert (groups + [group])[..|groups|] == groups;
  }

  /** A shorter end of the rows sums to less. */
  lemma {:induction false} SumOfEnds(rows: Rows, i: nat, j: nat)
    requires i <= j <= |rows|
    ensures Sum(rows[j..]) <= Sum(rows[i..])
    decreases |rows|
  {
    if j < |rows| {
      var most, row := rows[..|rows| - 1], rows[|rows| - 1];
      SumOfEnds(most, i, j);
      assert rows[j..] == most[j..] + [row] && rows[i..] == most[i..] + [row];
      SumAppend(most[j..], row);
      SumAppend(most[i..], row);
    } else {
      assert rows[j..] == [];
    }
  }

  lemma {:induction false} LastIsEnd(groups: seq<Rows>, rows: Rows, pat: string, limit: nat)
    requires IsSplit(groups, rows, pat, limit) && groups != []
    ensures var l := groups[|groups| - 1]; 0 < |l| <= |rows| && rows[|rows| - |l|..] == l
  {
    var l := groups[|groups| - 1];
    assert Fits(l, pat, limit);
    assert rows == Flatten(groups[..|groups| - 1]) + l;
  }

  /** Of two splits, the one whose last group is shorter has the cheaper last group. */
  lemma {:induction false} ShorterIsCheaper(a: seq<Rows>, b: seq<Rows>, rows: Rows, pat: string, limit: nat)
    requires IsSplit(a, rows, pat, limit) && IsSplit(b, rows, pat, limit) && a != [] && b != []
    requires |a[|a| - 1]| <= |b[|b| - 1]|
    ensures Cost(pat, a[|a| - 1]) <= Cost(pat, b[|b| - 1])
  {
    LastIsEnd(a, rows, pat, limit);
    LastIsEnd(b, rows, pat, limit);
    SumOfEnds(rows, |rows| - |b[|b| - 1]|, |rows| - |a[|a| - 1]|);
  }

  /** A split without the last row. */
  function Shortened(groups: seq<Rows>): seq<Rows>
    requires groups != []
  {
    var n := |groups|;
    var l := groups[n - 1];
    if |l| <= 1 then groups[..n - 1] else groups[..n - 1] + [l[..|l| - 1]]
  }

  lemma {:induction false} ShortenedIsSplit(groups: seq<Rows>, rows: Rows, row: string, pat: string, limit: nat)
    requires IsSplit(groups, rows + [row], pat, limit)
    ensures groups != [] && groups[|groups| - 1] != [] && IsSplit(Shortened(groups), rows, pat, limit)
    ensures var l := groups[|groups| - 1]; l == l[..|l| - 1] + [row]
  {
    var n := |groups|;
    assert groups == [] ==> Flatten(groups) == [];
    var l := groups[n - 1];
    assert Fits(l, pat, limit);
    var front, m := groups[..n - 1], l[..|l| - 1];
    assert l == m + [l[|l| - 1]];
    assert Flatten(front) + l == (Flatten(front) + m) + [l[|l| - 1]];
    assert rows == (rows + [row])[..|rows|] == Flatten(front) + m;
    if |l| > 1 {
      FlattenAppend(front, m);
      SumAppend(m, row);
    }
  }

  lemma {:induction false} PlacedIsSplit(groups: seq<Rows>, rows: Rows, row: string, pat: string, limit: nat)
    requires IsSplit(groups, rows, pat, limit)
    ensures IsSplit(Placed(groups, row, pat, limit), rows + [row], pat, limit)
  {
    var n := |groups|;
    if n > 0 && Cost(pat, groups[n - 1]) + 2 + |row| < limit {
      var front, l := groups[..n - 1], groups[n - 1];
      FlattenAppend(front, l + [row]);
      assert Flatten(front) + (l + [row]) == (Flatten(front) + l) + [row];
      SumAppend(l, row);
    } else {
      FlattenAppend(groups, [row]);
    }
  }

  lemma {:induction false} PlacedIsAhead(
    groups: seq<Rows>, rows: Rows, row: string, others: seq<Rows>, pat: string, limit: nat)
    requires Best(groups, rows, pat, limit) && IsSplit(others, rows + [row], pat, limit)
    ensures Ahead(Placed(groups, row, pat, limit), others)
  {
    ShortenedIsSplit(others, rows, row, pat, limit);
    var shorter, l := Shortened(others), others[|others| - 1];
    assert Ahead(groups, shorter);
    if |l| > 1 && |groups| == |shorter| {
      assert shorter[|shorter| - 1] == l[..|l| - 1];
      ShorterIsCheaper(groups, shorter, rows, pat, limit);
      SumAppend(l[..|l| - 1], row);
      assert Fits(l, pat, limit);
    }
  }

  /** One more row placed greedily: no split of the rows is better than the result. */
  lemma {:induction false} PlacedIsBest(groups: seq<Rows>, rows: Rows, row: string, pat: string, limit: nat)
    requires Best(groups, rows, pat, limit)
    ensures Best(Placed(groups, row, pat, limit), rows + [row], pat, limit)
  {
    PlacedIsSplit(groups, rows, row, pat, limit);
    forall others | IsSplit(others, rows + [row], pat, limit)
      ensures Ahead(Placed(groups, row, pat, limit), others)
    {
      PlacedIsAhead(groups, rows, row, others, pat, limit);
    }
  }

  /** A statement is four bytes shorter than it is counted. */
  lemma {:induction false} StatementLength(pat: string, group: Rows)
    requires group != []
    ensures |Statement(pat, group)| + 4 == Cost(pat, group)
  {
    if |group| == 1 {
      assert group[..0] == [] && Sum(group[..0]) == 0;
    } else {
      StatementLength(pat, group[..|group| - 1]);
    }
  }

  lemma {:induction false} GreedyIsBest(rows: Rows, pat: string, limit: nat)
    ensures Best(Greedy(rows, pat, limit), rows, pat, limit)
  {
    if rows != [] {
      var most, row := rows[..|rows| - 1], rows[|rows| - 1];
      GreedyIsBest(most, pat, limit);
      PlacedIsBest(Greedy(most, pat, limit), most, row, pat, limit);
      assert rows == most + [row];
    }
  }

  /**
    The greedy split has every row once and in order, keeps each statement of several rows below
    the limit, and no split of the rows that does so has fewer statements.
  */
  lemma {:induction false} PackingIsOptimal(rows: Rows, pat: string, limit: nat)
    ensures var groups := Greedy(rows, pat, limit);
      && NonEmpty(groups) && Flatten(groups) == rows
      && (forall i :: 0 <= i < |groups| && |groups[i]| > 1 ==> |Statement(pat, groups[i])| + 4 < limit)
      && (forall others :: IsSplit(others, rows, pat, limit) ==> |groups| <= |others|)
  {
    var groups := Greedy(rows, pat, limit);
    GreedyIsBest(rows, pat, limit);
    forall i | 0 <= i < |groups| && |groups[i]| > 1 ensures groups[i] != [] && |Statement(pat, groups[i])| + 4 < limit {
      StatementLength(pat, groups[i]);
      assert Fits(groups[i], pat, limit);
    }
    assert forall others :: IsSplit(others, rows, pat, limit) ==> Ahead(groups, others);
  }

  // ---- The loop of dump_table ----

  /** Where the loop stands: what is written, and the length counted for the open statement. */
  ghost predicate Packing(
    out: string, totalLength: nat, rowBreak: bool, groups: seq<Rows>, rows: Rows, pat: string, limit: nat)
  {
    && groups == Greedy(rows, pat, limit) && NonEmpty(groups) && out == Pending(pat, groups)
    && (rowBreak <==> groups != [])
    && totalLength == if groups == [] then limit else Cost(pat, groups[|groups| - 1])
  }

  lemma {:induction false} OpenedGrows(pat: string, group: Rows, row: string)
    requires group != []
    ensures Opened(pat, group + [row]) == Opened(pat, group) + ",\n" + row
  {
    assert (group + [row])[..|group|] == group;
  }

  lemma {:induction false} PendingInGroup(pat: string, groups: seq<Rows>, row: string)
    requires NonEmpty(groups) && groups != []
    ensures var n := |groups|; var longer := groups[..n - 1] + [groups[n - 1] + [row]];
      NonEmpty(longer) && Pending(pat, longer) == Pending(pat, groups) + ",\n" + row
  {
    var n := |groups|;
    var front, l := groups[..n - 1], groups[n - 1];
    OpenedGrows(pat, l, row);
    assert (front + [l + [row]])[..n - 1] == front;
    assert Render(pat, front) + (Opened(pat, l) + ",\n" + row) == (Render(pat, front) + Opened(pat, l)) + ",\n" + row;
  }

  lemma {:induction false} PendingInNew(pat: string, groups: seq<Rows>, row: string)
    requires NonEmpty(groups)
    ensures NonEmpty(groups + [[row]])
    ensures Pending(pat, groups + [[row]]) == Ended(Pending(pat, groups), groups != []) + pat + row
  {
    assert (groups + [[row]])[..|groups|] == groups;
    PendingEnds(pat, groups);
    assert Render(pat, groups) + (pat + row) == Render(pat, groups) + pat + row;
  }

  /** The end of a statement, if one is open. */
  function Ended(out: string, rowBreak: bool): string {
    if rowBreak then out + ";\n" else out
  }

  lemma {:induction false} PendingEnds(pat: string, groups: seq<Rows>)
    requires NonEmpty(groups)
    ensures Render(pat, groups) == Ended(Pending(pat, groups), groups != [])
  {
    if groups != [] {
      var front, l := Render(pat, groups[..|groups| - 1]), Opened(pat, groups[|groups| - 1]);
      assert front + (l + ";\n") == (front + l) + ";\n";
    }
  }

  lemma {:induction false} InGroup(out: string, totalLength: nat, rowBreak: bool, row: string, pat: string, limit: nat,
                                   groups: seq<Rows>, rows: Rows)
    requires Packing(out, totalLength, rowBreak, groups, rows, pat, limit) && totalLength + 2 + |row| < limit
    ensures Packing(out + ",\n" + row, totalLength + 2 + |row|, rowBreak,
                    Placed(groups, row, pat, limit), rows + [row], pat, limit)
  {
    assert (rows + [row])[..|rows|] == rows;
    PendingInGroup(pat, groups, row);
    SumAppend(groups[|groups| - 1], row);
  }

  lemma {:induction false} InNew(out: string, totalLength: nat, rowBreak: bool, row: string, pat: string, limit: nat,
                                 groups: seq<Rows>, rows: Rows)
    requires Packing(out, totalLength, rowBreak, groups, rows, pat, limit) && totalLength + 2 + |row| >= limit
    ensures Packing(Ended(out, rowBreak) + pat + row, 2 + |row| + |pat| + 4, true, Placed(groups, row, pat, limit),
                    rows + [row], pat, limit)
  {
    assert (rows + [row])[..|rows|] == rows;
    PendingInNew(pat, groups, row);
    SumAppend([], row);
    assert [] + [row] == [row];
  }

  /** A row goes into the open statement while that stays below the limit; else it opens another. */
  method PackRow(out: string, totalLength: nat, rowBreak: bool, row: string, pat: string, limit: nat,
                 ghost groups: seq<Rows>, ghost rows: Rows)
    returns (out': string, totalLength': nat, rowBreak': bool)
    requires Packing(out, totalLength, rowBreak, groups, rows, pat, limit)
    ensures Packing(out', totalLength', rowBreak', Placed(groups, row, pat, limit), rows + [row], pat, limit)
  {
    var initLength, rowLength := |pat| + 4, 2 + |row|;
    if totalLength + rowLength < limit {
      InGroup(out, totalLength, rowBreak, row, pat, limit, groups, rows);
      return out + ",\n" + row, totalLength + rowLength, rowBreak;
    }
    InNew(out, totalLength, rowBreak, row, pat, limit, groups, rows);
    out' := out;
    if rowBreak {
      out' := out' + ";\n";
    }
    return out' + pat + row, rowLength + initLength, true;
  }

  /** The statements of a table. */
  method Pack(rows: Rows, pat: string, limit: nat) returns (out: string)
    ensures NonEmpty(Greedy(rows, pat, limit)) && out == Render(pat, Greedy(rows, pat, limit))
  {
    out := "";
    var totalLength, rowBreak := limit, false;
    for i := 0 to |rows|
      invariant Packing(out, totalLength, rowBreak, Greedy(rows[..i], pat, limit), rows[..i], pat, limit)
    {
      assert rows[..i + 1] == rows[..i] + [rows[i]] && rows[..i + 1][..i] == rows[..i];
      out, totalLength, rowBreak :=
        PackRow(out, totalLength, rowBreak, rows[i], pat, limit, Greedy(rows[..i], pat, limit), rows[..i]);
    }
    assert rows[..|rows|] == rows;
    PendingEnds(pat, Greedy(rows, pat, limit));
    if rowBreak {
      out := out + ";\n";
    }
  }
}
