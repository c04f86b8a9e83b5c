/** The two-row edit-distance loop, its meaning as a least number of single-character edits,
    and the metric laws. */
module EditDistance {

  // ---- Edit scripts: the meaning ----

  datatype Edit =
    | Insert(at: nat, c: char)
    | Delete(at: nat)
    | Substitute(at: nat, c: char)
  {
    predicate Fits(s: string) {
      if Insert? then at <= |s| else at < |s|
    }

    function Apply(s: string): string
      requires Fits(s)
    {
      match this
      case Insert(i, x) => s[..i] + [x] + s[i..]
      case Delete(i) => s[..i] + s[i + 1..]
      case Substitute(i, x) => s[i := x]
    }
  }

  ghost predicate OneEditApart(s: string, t: string) {
    exists edit: Edit :: edit.Fits(s) && edit.Apply(s) == t
  }

  /** The words an edit script goes through, from `s` to `t`, one edit at a time. */
  ghost predicate IsScript(words: seq<string>, s: string, t: string) {
    && words != [] && words[0] == s && words[|words| - 1] == t
    && forall k | 0 <= k < |words| - 1 :: OneEditApart(words[k], words[k + 1])
  }

  /** Some script of `n` edits turns `s` into `t`. */
  ghost predicate Reaches(s: string, t: string, n: nat) {
    exists words :: IsScript(words, s, t) && |words| == n + 1
  }

  ghost predicate IsLeastEditCount(s: string, t: string, n: nat) {
    && Reaches(s, t, n)
    && (forall m: nat :: Reaches(s, t, m) ==> n <= m)
  }

  // ---- The recurrence the table is filled with ----

  function Min(a: nat, b: nat, c: nat): nat {
    if a <= b && a <= c then a else if b <= c then b else c
  }

  function Cost(a: char, b: char): nat { if a == b then 0 else 1 }

  ghost function Recurrence(left: string, right: string, i: nat, j: nat): nat
    requires i <= |left| && j <= |right|
    decreases i + j
  {
    if i == 0 then j
    else if j == 0 then i
    else Min(Recurrence(left, right, i, j - 1) + 1,
             Recurrence(left, right, i - 1, j) + 1,
             Recurrence(left, right, i - 1, j - 1) + Cost(left[i - 1], right[j - 1]))
  }

  type Table = seq<seq<nat>>

  ghost predicate HasShape(table: Table, left: string, right: string) {
    |table| <= |left| + 1 && forall i | 0 <= i < |table| :: |table[i]| == |right| + 1
  }

  /** The recurrence at one entry. */
  ghost predicate EntryLaw(table: Table, left: string, right: string, i: nat, j: nat)
    requires HasShape(table, left, right) && i < |table| && j <= |right|
  {
    table[i][j] ==
    if i == 0 then j
    else if j == 0 then i
    else Min(table[i][j - 1] + 1,
             table[i - 1][j] + 1,
             table[i - 1][j - 1] + Cost(left[i - 1], right[j - 1]))
  }

  ghost predicate IsTable(table: Table, left: string, right: string) {
    && HasShape(table, left, right)
    && forall i, j | 0 <= i < |table| && 0 <= j <= |right| :: EntryLaw(table, left, right, i, j)
  }

  /** The next row, built entry by entry. */
  ghost function NextRow(previous: seq<nat>, c: char, i: nat, right: string, upTo: nat): (row: seq<nat>)
    requires |previous| == |right| + 1 && upTo <= |right|
    ensures |row| == upTo + 1 && row[0] == i
    ensures forall j | 0 < j <= upTo ::
      row[j] == Min(row[j - 1] + 1, previous[j] + 1, previous[j - 1] + Cost(c, right[j - 1]))
  {
    if upTo == 0 then [i]
    else
      var row := NextRow(previous, c, i, right, upTo - 1);
      row + [Min(row[upTo - 1] + 1, previous[upTo] + 1, previous[upTo - 1] + Cost(c, right[upTo - 1]))]
  }

  lemma {:induction false} TableExists(left: string, right: string, rows: nat)
    requires rows <= |left|
    ensures exists table: Table :: |table| == rows + 1 && IsTable(table, left, right)
  {
    if rows == 0 {
      var table := [seq(|right| + 1, j => j)];
      assert IsTable(table, left, right);
    } else {
      TableExists(left, right, rows - 1);
      var above: Table :| |above| == rows && IsTable(above, left, right);
      var table := above + [NextRow(above[rows - 1], left[rows - 1], rows, right, |right|)];
      forall i, j | 0 <= i < |table| && 0 <= j <= |right|
        ensures EntryLaw(table, left, right, i, j)
      {
        if i < rows {
          assert EntryLaw(above, left, right, i, j);
        }
      }
      assert IsTable(table, left, right);
    }
  }

  /** The recurrence determines every entry of every table that obeys it. */
  lemma {:induction false} TableIsRecurrence(table: Table, left: string, right: string, i: nat, j: nat)
    requires IsTable(table, left, right) && i < |table| && j <= |right|
    ensures table[i][j] == Recurrence(left, right, i, j)
    decreases i + j
  {
    assert EntryLaw(table, left, right, i, j);
    if i > 0 && j > 0 {
      TableIsRecurrence(table, left, right, i, j - 1);
      TableIsRecurrence(table, left, right, i - 1, j);
      TableIsRecurrence(table, left, right, i - 1, j - 1);
    }
  }

  /** The whole table, which the proofs below refer to. */
  ghost function TableOf(left: string, right: string): Table {
    TableExists(left, right, |left|);
    var table: Table :| |table| == |left| + 1 && IsTable(table, left, right);
    table
  }

  /** The table entry for the first `i` characters of `left` and the first `j` of `right`. */
  ghost function Cell(left: string, right: string, i: nat, j: nat): nat
    requires i <= |left| && j <= |right|
  {
    TableOf(left, right)[i][j]
  }

  /** The recurrence of the edit-distance table. */
  lemma CellLaw(left: string, right: string, i: nat, j: nat)
    requires i <= |left| && j <= |right|
    ensures i == 0 ==> Cell(left, right, i, j) == j
    ensures j == 0 ==> Cell(left, right, i, j) == i
    ensures i > 0 && j > 0 ==>
      Cell(left, right, i, j)
      == Min(Cell(left, right, i, j - 1) + 1,
             Cell(left, right, i - 1, j) + 1,
             Cell(left, right, i - 1, j - 1) + Cost(left[i - 1], right[j - 1]))
  {
    assert EntryLaw(TableOf(left, right), left, right, i, j);
  }

  ghost function Distance(left: string, right: string): nat {
    Cell(left, right, |left|, |right|)
  }

  // ---- Metric laws ----

  lemma {:induction false} CellZero(s: string, t: string, i: nat, j: nat)
    requires i <= |s| && j <= |t|
    ensures Cell(s, t, i, j) == 0 <==> s[..i] == t[..j]
    decreases i + j
  {
    CellLaw(s, t, i, j);
    if i > 0 && j > 0 {
      CellZero(s, t, i - 1, j - 1);
      assert s[..i] == s[..i - 1] + [s[i - 1]] && t[..j] == t[..j - 1] + [t[j - 1]];
    }
  }

  lemma DistanceZero(s: string, t: string)
    ensures Distance(s, t) == 0 <==> s == t
  {
    CellZero(s, t, |s|, |t|);
    assert s[..|s|] == s && t[..|t|] == t;
  }

  lemma {:induction false} CellSymmetric(s: string, t: string, i: nat, j: nat)
    requires i <= |s| && j <= |t|
    ensures Cell(s, t, i, j) == Cell(t, s, j, i)
    decreases i + j
  {
    CellLaw(s, t, i, j);
    CellLaw(t, s, j, i);
    if i > 0 && j > 0 {
      CellSymmetric(s, t, i - 1, j);
      CellSymmetric(s, t, i, j - 1);
      CellSymmetric(s, t, i - 1, j - 1);
    }
  }

  lemma DistanceSymmetric(s: string, t: string)
    ensures Distance(s, t) == Distance(t, s)
  {
    CellSymmetric(s, t, |s|, |t|);
  }

  lemma {:induction false} CellBounds(s: string, t: string, i: nat, j: nat)
    requires i <= |s| && j <= |t|
    ensures i - j <= Cell(s, t, i, j) && j - i <= Cell(s, t, i, j)
    ensures Cell(s, t, i, j) <= i || Cell(s, t, i, j) <= j
  {
    CellLaw(s, t, i, j);
    if i > 0 && j > 0 {
      CellBounds(s, t, i - 1, j);
      CellBounds(s, t, i, j - 1);
      CellBounds(s, t, i - 1, j - 1);
    }
  }

  lemma DistanceBounds(s: string, t: string)
    ensures |s| - |t| <= Distance(s, t) && |t| - |s| <= Distance(s, t)
    ensures Distance(s, t) <= |s| || Distance(s, t) <= |t|
  {
    CellBounds(s, t, |s|, |t|);
  }

  lemma {:induction false} CellTriangle(a: string, b: string, c: string, i: nat, j: nat, k: nat)
    requires i <= |a| && j <= |b| && k <= |c|
    ensures Cell(a, c, i, k) <= Cell(a, b, i, j) + Cell(b, c, j, k)
    decreases i + j + k
  {
    CellLaw(a, b, i, j);
    CellLaw(b, c, j, k);
    CellLaw(a, c, i, k);
    if i == 0 {
      CellBounds(b, c, j, k);
    } else if k == 0 {
      CellBounds(a, b, i, j);
    } else if j == 0 {
      CellBounds(a, c, i, k);
    } else if Cell(a, b, i, j) == Cell(a, b, i - 1, j) + 1 {
      CellTriangle(a, b, c, i - 1, j, k);
    } else if Cell(b, c, j, k) == Cell(b, c, j, k - 1) + 1 {
      CellTriangle(a, b, c, i, j, k - 1);
    } else if Cell(b, c, j, k) == Cell(b, c, j - 1, k) + 1 {
      if Cell(a, b, i, j) == Cell(a, b, i, j - 1) + 1 {
        CellTriangle(a, b, c, i, j - 1, k);
      } else {
        CellTriangle(a, b, c, i - 1, j - 1, k);
      }
    } else if Cell(a, b, i, j) == Cell(a, b, i, j - 1) + 1 {
      CellTriangle(a, b, c, i, j - 1, k - 1);
    } else {
      CellTriangle(a, b, c, i - 1, j - 1, k - 1);
    }
  }

  lemma DistanceTriangle(a: string, b: string, c: string)
    ensures Distance(a, c) <= Distance(a, b) + Distance(b, c)
  {
    CellTriangle(a, b, c, |a|, |b|, |c|);
  }

  // ---- Upper bound: a script of that length exists ----

  lemma ReachesThen(s: string, t: string, u: string, n: nat, m: nat)
    requires Reaches(s, t, n) && Reaches(t, u, m)
    ensures Reaches(s, u, n + m)
  {
    var first :| IsScript(first, s, t) && |first| == n + 1;
    var second :| IsScript(second, t, u) && |second| == m + 1;
    var words := first + second[1..];
    forall k | 0 <= k < |words| - 1
      ensures OneEditApart(words[k], words[k + 1])
    {
      assert if k < n then words[k] == first[k] && words[k + 1] == first[k + 1]
             else words[k] == second[k - n] && words[k + 1] == second[k - n + 1];
    }
    assert IsScript(words, s, u);
  }

  lemma ReachesByEdit(edit: Edit, s: string, t: string)
    requires edit.Fits(s) && edit.Apply(s) == t
    ensures Reaches(s, t, 1)
  {
    assert OneEditApart(s, t);
    assert IsScript([s, t], s, t);
  }

  lemma ReachesSelf(s: string)
    ensures Reaches(s, s, 0)
  {
    assert IsScript([s], s, s);
  }

  /** An edit acts the same way when characters follow that it does not touch. */
  lemma OneEditBefore(s: string, t: string, x: char)
    requires OneEditApart(s, t)
    ensures OneEditApart(s + [x], t + [x])
  {
    var edit: Edit :| edit.Fits(s) && edit.Apply(s) == t;
    var i := edit.at;
    assert (s + [x])[..i] == s[..i] && (s + [x])[i..] == s[i..] + [x];
    if edit.Delete? {
      assert (s + [x])[i + 1..] == s[i + 1..] + [x];
    }
    assert edit.Fits(s + [x]);
    assert edit.Apply(s + [x]) == t + [x];
  }

  lemma ReachesBefore(s: string, t: string, n: nat, x: char)
    requires Reaches(s, t, n)
    ensures Reaches(s + [x], t + [x], n)
  {
    var words :| IsScript(words, s, t) && |words| == n + 1;
    var longer := seq(|words|, k requires 0 <= k < |words| => words[k] + [x]);
    forall k | 0 <= k < |longer| - 1
      ensures OneEditApart(longer[k], longer[k + 1])
    {
      OneEditBefore(words[k], words[k + 1], x);
    }
    assert IsScript(longer, s + [x], t + [x]);
  }

  lemma EditLast(s: string, x: char, y: char)
    ensures Reaches(s + [x], s, 1) && Reaches(s, s + [x], 1)
    ensures Reaches(s + [x], s + [y], Cost(x, y))
  {
    var n := |s|;
    assert Delete(n).Apply(s + [x]) == s;
    ReachesByEdit(Delete(n), s + [x], s);
    assert Insert(n, x).Apply(s) == s + [x];
    ReachesByEdit(Insert(n, x), s, s + [x]);
    if x == y {
      ReachesSelf(s + [x]);
    } else {
      assert Substitute(n, y).Apply(s + [x]) == s + [y];
      ReachesByEdit(Substitute(n, y), s + [x], s + [y]);
    }
  }

  lemma DeleteStep(s: string, x: char, s': string, t: string, n: nat)
    requires s' == s + [x] && Reaches(s, t, n)
    ensures Reaches(s', t, n + 1)
  {
    EditLast(s, x, x);
    ReachesThen(s', s, t, 1, n);
  }

  lemma InsertStep(s: string, t: string, y: char, t': string, n: nat)
    requires t' == t + [y] && Reaches(s, t, n)
    ensures Reaches(s, t', n + 1)
  {
    EditLast(t, y, y);
    ReachesThen(s, t, t', n, 1);
  }

  lemma SubstituteStep(s: string, x: char, s': string, t: string, y: char, t': string, n: nat)
    requires s' == s + [x] && t' == t + [y] && Reaches(s, t, n)
    ensures Reaches(s', t', n + Cost(x, y))
  {
    ReachesBefore(s, t, n, x);
    EditLast(t, x, y);
    ReachesThen(s', t + [x], t', n, Cost(x, y));
  }

  lemma {:induction false} CellReached(s: string, t: string, i: nat, j: nat)
    requires i <= |s| && j <= |t|
    ensures Reaches(s[..i], t[..j], Cell(s, t, i, j))
    decreases i + j
  {
    var n := Cell(s, t, i, j);
    CellLaw(s, t, i, j);
    if i == 0 && j == 0 {
      ReachesSelf(s[..0]);
      assert s[..0] == t[..0];
    } else if i > 0 && n == Cell(s, t, i - 1, j) + 1 {
      CellReached(s, t, i - 1, j);
      DeleteStep(s[..i - 1], s[i - 1], s[..i], t[..j], n - 1);
    } else if j > 0 && n == Cell(s, t, i, j - 1) + 1 {
      CellReached(s, t, i, j - 1);
      InsertStep(s[..i], t[..j - 1], t[j - 1], t[..j], n - 1);
    } else {
      if i == 0 {
        CellLaw(s, t, i, j - 1);
      }
      if j == 0 {
        CellLaw(s, t, i - 1, j);
      }
      CellReached(s, t, i - 1, j - 1);
      SubstituteStep(s[..i - 1], s[i - 1], s[..i], t[..j - 1], t[j - 1], t[..j], Cell(s, t, i - 1, j - 1));
    }
  }

  // ---- Lower bound: no script is shorter ----

  /** An entry depends on the two prefixes only. */
  lemma {:induction false} CellPrefix(s: string, t: string, s': string, t': string, i: nat, j: nat)
    requires i <= |s| && j <= |t| && i <= |s'| && j <= |t'|
    requires s[..i] == s'[..i] && t[..j] == t'[..j]
    ensures Cell(s, t, i, j) == Cell(s', t', i, j)
  {
    CellLaw(s, t, i, j);
    CellLaw(s', t', i, j);
    if i > 0 && j > 0 {
      assert s[..i - 1] == s[..i][..i - 1] && s'[..i - 1] == s'[..i][..i - 1];
      assert t[..j - 1] == t[..j][..j - 1] && t'[..j - 1] == t'[..j][..j - 1];
      CellPrefix(s, t, s', t', i - 1, j);
      CellPrefix(s, t, s', t', i, j - 1);
      CellPrefix(s, t, s', t', i - 1, j - 1);
      assert s[i - 1] == s[..i][i - 1] && t[j - 1] == t[..j][j - 1];
    }
  }

  /** Going along a common stretch never makes the entry larger. */
  lemma {:induction false} CellDiagonal(s: string, t: string, i: nat, j: nat, k: nat)
    requires i + k <= |s| && j + k <= |t|
    requires s[i..i + k] == t[j..j + k]
    ensures Cell(s, t, i + k, j + k) <= Cell(s, t, i, j)
  {
    CellLaw(s, t, i + k, j + k);
    if k > 0 {
      assert s[i..i + k][..k - 1] == s[i..i + k - 1];
      assert t[j..j + k][..k - 1] == t[j..j + k - 1];
      CellDiagonal(s, t, i, j, k - 1);
      assert s[i..i + k][k - 1] == t[j..j + k][k - 1];
    }
  }

  lemma ApplyAround(edit: Edit, s: string)
    requires edit.Fits(s)
    ensures var t, i := edit.Apply(s), edit.at;
      && s[..i] == t[..i]
      && s[if edit.Insert? then i else i + 1..] == t[if edit.Delete? then i else i + 1..]
  {
    var t, i := edit.Apply(s), edit.at;
    match edit
    case Insert(_, x) =>
      assert t == (s[..i] + [x]) + s[i..];
    case Delete(_) =>
      assert t == s[..i] + s[i + 1..];
    case Substitute(_, x) =>
      assert t == (s[..i] + [x]) + s[i + 1..];
  }

  /** Two words that differ by at most one character between a common prefix and a common suffix. */
  lemma DistanceCommonEnds(s: string, t: string, i: nat, a: nat, b: nat)
    requires i <= a <= i + 1 && i <= b <= i + 1 && a <= |s| && b <= |t|
    requires s[..i] == t[..i] && s[a..] == t[b..]
    ensures Distance(s, t) <= 1
  {
    CellZero(s, t, i, i);
    CellLaw(s, t, a, b);
    assert |s| - a == |t| - b;
    assert s[a..a + (|s| - a)] == s[a..] && t[b..b + (|s| - a)] == t[b..];
    CellDiagonal(s, t, a, b, |s| - a);
  }

  lemma DistanceOneEdit(s: string, t: string)
    requires OneEditApart(s, t)
    ensures Distance(s, t) <= 1
  {
    var edit: Edit :| edit.Fits(s) && edit.Apply(s) == t;
    var i := edit.at;
    ApplyAround(edit, s);
    DistanceCommonEnds(s, t, i, if edit.Insert? then i else i + 1, if edit.Delete? then i else i + 1);
  }

  lemma {:induction false} NoShorterScript(words: seq<string>, s: string, t: string)
    requires IsScript(words, s, t)
    ensures Distance(s, t) <= |words| - 1
  {
    if |words| == 1 {
      DistanceZero(s, t);
    } else {
      DistanceOneEdit(words[0], words[1]);
      NoShorterScript(words[1..], words[1], t);
      DistanceTriangle(s, words[1], t);
    }
  }

  /** The recurrence computes the least number of edits. */
  lemma DistanceIsLeast(s: string, t: string)
    ensures IsLeastEditCount(s, t, Distance(s, t))
  {
    CellReached(s, t, |s|, |t|);
    assert s[..|s|] == s && t[..|t|] == t;
    forall m: nat | Reaches(s, t, m)
      ensures Distance(s, t) <= m
    {
      var words :| IsScript(words, s, t) && |words| == m + 1;
      NoShorterScript(words, s, t);
    }
  }

  // ---- The two-row loop ----

  /** `row` holds row `i` of the table, as far as it goes. */
  ghost predicate IsRow(row: seq<nat>, left: string, right: string, i: nat)
    requires i <= |left| && |row| <= |right| + 1
  {
    forall j | 0 <= j < |row| :: row[j] == Cell(left, right, i, j)
  }

  /** One more entry of the row below. */
  lemma NextEntry(previous: seq<nat>, current: seq<nat>, left: string, right: string, i: nat, j: nat)
    requires i < |left| && j < |right| && |previous| == |right| + 1 && |current| == j + 1
    requires IsRow(previous, left, right, i) && IsRow(current, left, right, i + 1)
    ensures var entry := Min(current[j] + 1, previous[j + 1] + 1, previous[j] + Cost(left[i], right[j]));
      IsRow(current + [entry], left, right, i + 1)
  {
    CellLaw(left, right, i + 1, j + 1);
  }

  /** The nested loops, which the two copies of the function share. */
  method FillRows(left: string, right: string) returns (d: nat)
    ensures d == Distance(left, right)
  {
    var previous := new nat[|right| + 1](j => j);
    var current := new nat[|right| + 1](_ => 0);
    forall j | 0 <= j <= |right|
      ensures previous[j] == Cell(left, right, 0, j)
    {
      CellLaw(left, right, 0, j);
    }
    for i := 0 to |left|
      invariant fresh(previous) && fresh(current) && previous != current
      invariant IsRow(previous[..], left, right, i)
    {
      current[0] := i + 1;
      CellLaw(left, right, i + 1, 0);
      for j := 0 to |right|
        invariant IsRow(previous[..], left, right, i)
        invariant IsRow(current[..j + 1], left, right, i + 1)
      {
        NextEntry(previous[..], current[..j + 1], left, right, i, j);
        var substitution := Cost(left[i], right[j]);
        current[j + 1] := Min(current[j] + 1, previous[j + 1] + 1, previous[j] + substitution);
        assert current[..j + 2] == current[..j + 1] + [current[j + 1]];
      }
      forall j | 0 <= j < previous.Length {
        previous[j] := current[j];
      }
      assert previous[..] == current[..|right| + 1];
    }
    d := previous[|right|];
    assert d == previous[..][|right|];
  }

  /** `levenshtein_distance` of the commands crate, with its equality shortcut. */
  method LevenshteinDistance(left: string, right: string) returns (d: nat)
    ensures d == Distance(left, right) && IsLeastEditCount(left, right, d)
  {
    DistanceIsLeast(left, right);
    if left == right {
      DistanceZero(left, right);
      return 0;
    }
    CellLaw(left, right, |left|, |right|);
    if left == "" {
      return |right|;
    }
    if right == "" {
      return |left|;
    }
    d := FillRows(left, right);
  }

  /** The second copy, in the command-line crate: no equality shortcut, the same number. */
  method LevenshteinDistanceCli(left: string, right: string) returns (d: nat)
    ensures d == Distance(left, right) && IsLeastEditCount(left, right, d)
  {
    DistanceIsLeast(left, right);
    CellLaw(left, right, |left|, |right|);
    if left == "" {
      return |right|;
    }
    if right == "" {
      return |left|;
    }
    d := FillRows(left, right);
  }
}
