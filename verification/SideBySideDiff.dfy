/**
 The side-by-side diff of the console: a table of longest-common-subsequence lengths filled from the end, then a
 greedy walk that emits two columns of equal height.
 */
module SideBySideDiff {
  import opened Options
  import opened Text

  type Line = string

  /** The style of a row: unmarked, added, removed, changed, or a filler. */
  datatype Mark = Same | Added | Removed | Changed | Filler

  datatype Row = Row(no: Option<nat>, text: Line, mark: Mark)

  const Blank := Row(None, "", Filler)

  const TableLimit := 120000

  /******* Reference: common subsequences *******/

  /** c is obtained from a by dropping elements. */
  predicate Subsequence(c: seq<Line>, a: seq<Line>) {
    c == [] || (a != [] && ((c[0] == a[0] && Subsequence(c[1..], a[1..])) || Subsequence(c, a[1..])))
  }

  predicate Common(c: seq<Line>, a: seq<Line>, b: seq<Line>) {
    Subsequence(c, a) && Subsequence(c, b)
  }

  lemma {:induction false} DropHead(c: seq<Line>, a: seq<Line>)
    requires c != [] && Subsequence(c, a)
    ensures Subsequence(c[1..], a)
  {
    if !(c[0] == a[0] && Subsequence(c[1..], a[1..])) {
      DropHead(c, a[1..]);
    }
    if c[1..] != [] {
      assert Subsequence(c[1..], a[1..]);
    }
  }

  /** A subsequence that starts like a can be matched with a's first line. */
  lemma TailOf(c: seq<Line>, a: seq<Line>)
    requires c != [] && a != [] && Subsequence(c, a)
    ensures Subsequence(c[1..], a[1..])
  {
    if !(c[0] == a[0] && Subsequence(c[1..], a[1..])) {
      DropHead(c, a[1..]);
    }
  }

  /******* The recurrence of the table *******/

  function Lcs(a: seq<Line>, b: seq<Line>): nat
    decreases |a| + |b|
  {
    if a == [] || b == [] then 0
    else if a[0] == b[0] then Lcs(a[1..], b[1..]) + 1
    else Max(Lcs(a[1..], b), Lcs(a, b[1..]))
  }

  function Max(x: nat, y: nat): nat {
    if x > y then x else y
  }

  /** No common subsequence is longer than the table says. */
  lemma {:induction false} LcsIsUpperBound(c: seq<Line>, a: seq<Line>, b: seq<Line>)
    requires Common(c, a, b)
    ensures |c| <= Lcs(a, b)
    decreases |a| + |b|
  {
    if c != [] {
      if a[0] == b[0] {
        TailOf(c, a);
        TailOf(c, b);
        LcsIsUpperBound(c[1..], a[1..], b[1..]);
      } else if c[0] == a[0] {
        assert Subsequence(c, b[1..]);
        LcsIsUpperBound(c, a, b[1..]);
      } else {
        assert Subsequence(c, a[1..]);
        LcsIsUpperBound(c, a[1..], b);
      }
    }
  }

  /******* What two columns mean *******/

  /** The lines of a column, without its fillers. */
  function Lines(column: seq<Row>): seq<Line> {
    if column == [] then []
    else
      var n := |column| - 1;
      if column[n].mark == Filler then Lines(column[..n]) else Lines(column[..n]) + [column[n].text]
  }

  /** The unmarked lines of a column. */
  function Kept(column: seq<Row>): seq<Line> {
    if column == [] then []
    else
      var n := |column| - 1;
      if column[n].mark == Same then Kept(column[..n]) + [column[n].text] else Kept(column[..n])
  }

  /** Rows are numbered by the lines that come before them; a filler has neither number nor text. */
  predicate Numbered(column: seq<Row>) {
    column == []
    || var n := |column| - 1;
       Numbered(column[..n]) && WellNumbered(column[n], |Lines(column[..n])|)
  }

  predicate WellNumbered(row: Row, before: nat) {
    if row.mark == Filler then row == Blank else row.no == Some(before + 1)
  }

  /** At each height: an unmarked pair of equal lines, an added line against a filler, or a removed one. */
  predicate Paired(l: Row, r: Row) {
    || (l.mark == Same && r.mark == Same && l.text == r.text)
    || (l.mark == Filler && r.mark == Added)
    || (l.mark == Removed && r.mark == Filler)
  }

  predicate Aligned(left: seq<Row>, right: seq<Row>) {
    if left == [] || right == [] then left == [] && right == []
    else
      var m, n := |left| - 1, |right| - 1;
      Aligned(left[..m], right[..n]) && Paired(left[m], right[n])
  }

  lemma {:induction false} KeptIsSubsequence(column: seq<Row>)
    ensures Subsequence(Kept(column), Lines(column))
  {
    if column == [] {
    } else {
      var n := |column| - 1;
      KeptIsSubsequence(column[..n]);
      if column[n].mark == Same {
        AppendBoth(Kept(column[..n]), Lines(column[..n]), column[n].text);
      } else if column[n].mark != Filler {
        AppendRight(Kept(column[..n]), Lines(column[..n]), column[n].text);
      }
    }
  }

  lemma {:induction false} AppendBoth(c: seq<Line>, a: seq<Line>, x: Line)
    requires Subsequence(c, a)
    ensures Subsequence(c + [x], a + [x])
    decreases |a|
  {
    var c', a' := c + [x], a + [x];
    if a == [] {
      assert c'[1..] == [];
    } else {
      assert a'[1..] == a[1..] + [x];
      if c == [] {
        AppendBoth(c, a[1..], x);
      } else if c[0] == a[0] && Subsequence(c[1..], a[1..]) {
        AppendBoth(c[1..], a[1..], x);
        assert c'[1..] == c[1..] + [x];
      } else {
        AppendBoth(c, a[1..], x);
      }
    }
  }

  lemma {:induction false} AppendRight(c: seq<Line>, a: seq<Line>, x: Line)
    requires Subsequence(c, a)
    ensures Subsequence(c, a + [x])
    decreases |a|
  {
    if c != [] {
      assert (a + [x])[1..] == a[1..] + [x];
      if c[0] == a[0] && Subsequence(c[1..], a[1..]) {
        AppendRight(c[1..], a[1..], x);
      } else {
        AppendRight(c, a[1..], x);
      }
    }
  }

  lemma {:induction false} KeptAgree(left: seq<Row>, right: seq<Row>)
    requires Aligned(left, right)
    ensures Kept(left) == Kept(right)
  {
    if left != [] {
      KeptAgree(left[..|left| - 1], right[..|right| - 1]);
    }
  }

  /** The kept lines of aligned columns are a common subsequence of the two texts. */
  lemma KeptIsCommon(left: seq<Row>, right: seq<Row>)
    requires Aligned(left, right)
    ensures Kept(left) == Kept(right)
    ensures Common(Kept(left), Lines(left), Lines(right))
  {
    KeptAgree(left, right);
    KeptIsSubsequence(left);
    KeptIsSubsequence(right);
  }

  /** What one more row means. */
  lemma Push(column: seq<Row>, row: Row)
    ensures Lines(column + [row]) == if row.mark == Filler then Lines(column) else Lines(column) + [row.text]
    ensures Kept(column + [row]) == if row.mark == Same then Kept(column) + [row.text] else Kept(column)
    ensures Numbered(column + [row]) <==> Numbered(column) && WellNumbered(row, |Lines(column)|)
  {
    assert (column + [row])[..|column|] == column;
  }

  lemma PushPair(left: seq<Row>, right: seq<Row>, l: Row, r: Row)
    requires Aligned(left, right) && Paired(l, r)
    ensures Aligned(left + [l], right + [r])
  {
    assert (left + [l])[..|left|] == left && (right + [r])[..|right|] == right;
  }

  /** The column shows the first i lines of a text, with their numbers. */
  predicate Shows(column: seq<Row>, text: seq<Line>, i: nat) {
    i <= |text| && Lines(column) == text[..i] && Numbered(column)
  }

  lemma PushLine(column: seq<Row>, text: seq<Line>, i: nat, mark: Mark)
    requires Shows(column, text, i) && i < |text| && mark != Filler
    ensures Shows(column + [Row(Some(i + 1), text[i], mark)], text, i + 1)
  {
    Push(column, Row(Some(i + 1), text[i], mark));
    assert text[..i + 1] == text[..i] + [text[i]];
  }

  lemma PushBlank(column: seq<Row>, text: seq<Line>, i: nat)
    requires Shows(column, text, i)
    ensures Shows(column + [Blank], text, i)
  {
    Push(column, Blank);
  }

  /******* The algorithm *******/

  /** The table of the diff: entry (i, j) is the answer for the suffixes that start there. */
  method FillTable(a: seq<Line>, b: seq<Line>) returns (dp: array2<nat>)
    ensures fresh(dp) && dp.Length0 == |a| + 1 && dp.Length1 == |b| + 1
    ensures forall i, j :: 0 <= i <= |a| && 0 <= j <= |b| ==> dp[i, j] == Lcs(a[i..], b[j..])
  {
    dp := new nat[|a| + 1, |b| + 1]((i, j) => 0);
    var i := |a|;
    while i > 0
      invariant 0 <= i <= |a|
      invariant forall x, y :: i <= x <= |a| && 0 <= y <= |b| ==> dp[x, y] == Lcs(a[x..], b[y..])
      invariant forall x, y :: 0 <= x <= |a| && y == |b| ==> dp[x, y] == 0
    {
      i := i - 1;
      var j := |b|;
      while j > 0
        invariant 0 <= j <= |b|
        invariant forall x, y :: i < x <= |a| && 0 <= y <= |b| ==> dp[x, y] == Lcs(a[x..], b[y..])
        invariant forall y :: j <= y <= |b| ==> dp[i, y] == Lcs(a[i..], b[y..])
        invariant forall x, y :: 0 <= x <= |a| && y == |b| ==> dp[x, y] == 0
      {
        j := j - 1;
        assert a[i..][1..] == a[i + 1..] && b[j..][1..] == b[j + 1..];
        dp[i, j] := if a[i] == b[j] then dp[i + 1, j + 1] + 1 else Max(dp[i + 1, j], dp[i, j + 1]);
      }
    }
  }

  /** What is emitted so far, and what the table still promises for the rest, add up to the whole answer. */
  ghost predicate Emitted(a: seq<Line>, b: seq<Line>, i: nat, j: nat, left: seq<Row>, right: seq<Row>) {
    && Shows(left, a, i) && Shows(right, b, j)
    && Aligned(left, right)
    && |Kept(left)| + Lcs(a[i..], b[j..]) == Lcs(a, b)
  }

  lemma LcsStep(a: seq<Line>, b: seq<Line>, i: nat, j: nat)
    requires i <= |a| && j <= |b|
    ensures Lcs(a[i..], b[j..]) ==
      if i == |a| || j == |b| then 0
      else if a[i] == b[j] then Lcs(a[i + 1..], b[j + 1..]) + 1
      else Max(Lcs(a[i + 1..], b[j..]), Lcs(a[i..], b[j + 1..]))
  {
    assert i < |a| ==> a[i..][1..] == a[i + 1..];
    assert j < |b| ==> b[j..][1..] == b[j + 1..];
  }

  lemma EmitSame(a: seq<Line>, b: seq<Line>, i: nat, j: nat, left: seq<Row>, right: seq<Row>)
    requires Emitted(a, b, i, j, left, right) && i < |a| && j < |b| && a[i] == b[j]
    ensures Emitted(a, b, i + 1, j + 1, left + [Row(Some(i + 1), a[i], Same)], right + [Row(Some(j + 1), b[j], Same)])
  {
    var l, r := Row(Some(i + 1), a[i], Same), Row(Some(j + 1), b[j], Same);
    PushLine(left, a, i, Same);
    PushLine(right, b, j, Same);
    Push(left, l);
    PushPair(left, right, l, r);
    LcsStep(a, b, i, j);
  }

  lemma EmitAdded(a: seq<Line>, b: seq<Line>, i: nat, j: nat, left: seq<Row>, right: seq<Row>)
    requires Emitted(a, b, i, j, left, right) && j < |b|
    requires i == |a| || (a[i] != b[j] && Lcs(a[i..], b[j + 1..]) >= Lcs(a[i + 1..], b[j..]))
    ensures Emitted(a, b, i, j + 1, left + [Blank], right + [Row(Some(j + 1), b[j], Added)])
  {
    PushBlank(left, a, i);
    PushLine(right, b, j, Added);
    Push(left, Blank);
    PushPair(left, right, Blank, Row(Some(j + 1), b[j], Added));
    LcsStep(a, b, i, j);
  }

  lemma EmitRemoved(a: seq<Line>, b: seq<Line>, i: nat, j: nat, left: seq<Row>, right: seq<Row>)
    requires Emitted(a, b, i, j, left, right) && i < |a|
    requires j == |b| || (a[i] != b[j] && Lcs(a[i..], b[j + 1..]) < Lcs(a[i + 1..], b[j..]))
    ensures Emitted(a, b, i + 1, j, left + [Row(Some(i + 1), a[i], Removed)], right + [Blank])
  {
    PushLine(left, a, i, Removed);
    PushBlank(right, b, j);
    Push(left, Row(Some(i + 1), a[i], Removed));
    PushPair(left, right, Row(Some(i + 1), a[i], Removed), Blank);
    LcsStep(a, b, i, j);
  }

  /** Both texts in full, numbered, and with as many unmarked lines as any alignment can have. */
  ghost predicate OptimalDiff(a: seq<Line>, b: seq<Line>, left: seq<Row>, right: seq<Row>) {
    && Aligned(left, right)
    && Lines(left) == a && Lines(right) == b
    && Numbered(left) && Numbered(right)
    && Kept(left) == Kept(right) && Common(Kept(left), a, b)
    && forall c :: Common(c, a, b) ==> |c| <= |Kept(left)|
  }

  lemma FinishedIsOptimal(a: seq<Line>, b: seq<Line>, left: seq<Row>, right: seq<Row>)
    requires Emitted(a, b, |a|, |b|, left, right)
    ensures OptimalDiff(a, b, left, right)
  {
    assert a[..|a|] == a && b[..|b|] == b;
    KeptIsCommon(left, right);
    forall c | Common(c, a, b) ensures |c| <= |Kept(left)| {
      LcsIsUpperBound(c, a, b);
    }
  }

  method Trace(a: seq<Line>, b: seq<Line>, dp: array2<nat>) returns (left: seq<Row>, right: seq<Row>)
    requires dp.Length0 == |a| + 1 && dp.Length1 == |b| + 1
    requires forall i, j :: 0 <= i <= |a| && 0 <= j <= |b| ==> dp[i, j] == Lcs(a[i..], b[j..])
    ensures OptimalDiff(a, b, left, right)
  {
    left, right := [], [];
    var i, j := 0, 0;
    assert a[0..] == a && b[0..] == b;
    while i < |a| || j < |b|
      invariant Emitted(a, b, i, j, left, right)
      decreases |a| - i + |b| - j
    {
      if i < |a| && j < |b| && a[i] == b[j] {
        EmitSame(a, b, i, j, left, right);
        left := left + [Row(Some(i + 1), a[i], Same)];
        right := right + [Row(Some(j + 1), b[j], Same)];
        i, j := i + 1, j + 1;
      } else if j < |b| && (i == |a| || dp[i, j + 1] >= dp[i + 1, j]) {
        EmitAdded(a, b, i, j, left, right);
        left := left + [Blank];
        right := right + [Row(Some(j + 1), b[j], Added)];
        j := j + 1;
      } else {
        EmitRemoved(a, b, i, j, left, right);
        left := left + [Row(Some(i + 1), a[i], Removed)];
        right := right + [Blank];
        i := i + 1;
      }
    }
    FinishedIsOptimal(a, b, left, right);
  }

  /******* The fallback for large files *******/

  /** Both texts in full and numbered, side by side; unmarked rows carry equal lines. */
  ghost predicate LosslessDiff(a: seq<Line>, b: seq<Line>, left: seq<Row>, right: seq<Row>) {
    && |left| == |right|
    && Lines(left) == a && Lines(right) == b
    && Numbered(left) && Numbered(right)
    && forall k :: 0 <= k < |left| ==> (left[k].mark == Same <==> right[k].mark == Same)
                                       && (left[k].mark == Same ==> left[k].text == right[k].text)
  }

  lemma {:induction false} AlignedIsPaired(left: seq<Row>, right: seq<Row>)
    requires Aligned(left, right)
    ensures |left| == |right| && forall k :: 0 <= k < |left| ==> Paired(left[k], right[k])
  {
    if left != [] {
      AlignedIsPaired(left[..|left| - 1], right[..|right| - 1]);
    }
  }

  lemma {:induction false} OptimalIsLossless(a: seq<Line>, b: seq<Line>, left: seq<Row>, right: seq<Row>)
    requires OptimalDiff(a, b, left, right)
    ensures LosslessDiff(a, b, left, right)
  {
    AlignedIsPaired(left, right);
  }

  /** The row at height k of a column that shows `mine` against `theirs`. */
  function SimpleRow(mine: seq<Line>, theirs: seq<Line>, k: nat): Row {
    if k >= |mine| then Blank
    else Row(Some(k + 1), mine[k], if k < |theirs| && mine[k] == theirs[k] then Same else Changed)
  }

  function Min(x: nat, y: nat): nat {
    if x < y then x else y
  }

  /** The first k rows of a column that shows `mine` against `theirs`. */
  ghost predicate SimpleColumn(column: seq<Row>, mine: seq<Line>, theirs: seq<Line>, k: nat) {
    && |column| == k && Shows(column, mine, Min(k, |mine|))
    && forall x :: 0 <= x < k ==> column[x] == SimpleRow(mine, theirs, x)
  }

  lemma PushSimple(column: seq<Row>, mine: seq<Line>, theirs: seq<Line>, k: nat)
    requires SimpleColumn(column, mine, theirs, k)
    ensures SimpleColumn(column + [SimpleRow(mine, theirs, k)], mine, theirs, k + 1)
  {
    if k < |mine| {
      PushLine(column, mine, k, SimpleRow(mine, theirs, k).mark);
    } else {
      PushBlank(column, mine, |mine|);
    }
  }

  lemma SimpleIsLossless(a: seq<Line>, b: seq<Line>, left: seq<Row>, right: seq<Row>)
    requires SimpleColumn(left, a, b, Max(|a|, |b|)) && SimpleColumn(right, b, a, Max(|a|, |b|))
    ensures LosslessDiff(a, b, left, right)
    ensures forall k :: 0 <= k < |left| ==> (left[k].mark == Same <==> k < |a| && k < |b| && a[k] == b[k])
  {
    assert a[..|a|] == a && b[..|b|] == b;
    forall k | 0 <= k < |left|
      ensures left[k].mark == Same <==> right[k].mark == Same
      ensures left[k].mark == Same ==> left[k].text == right[k].text
    {
      assert left[k] == SimpleRow(a, b, k) && right[k] == SimpleRow(b, a, k);
    }
  }

  method BuildSimpleDiff(a: seq<Line>, b: seq<Line>) returns (left: seq<Row>, right: seq<Row>)
    ensures LosslessDiff(a, b, left, right) && |left| == Max(|a|, |b|)
    ensures forall k :: 0 <= k < |left| ==> (left[k].mark == Same <==> k < |a| && k < |b| && a[k] == b[k])
  {
    left, right := [], [];
    for k := 0 to Max(|a|, |b|)
      invariant SimpleColumn(left, a, b, k) && SimpleColumn(right, b, a, k)
    {
      PushSimple(left, a, b, k);
      PushSimple(right, b, a, k);
      left := left + [SimpleRow(a, b, k)];
      right := right + [SimpleRow(b, a, k)];
    }
    SimpleIsLossless(a, b, left, right);
  }

  /******* Lines of a file *******/

  /** Line ends as one newline each. */
  function UnixText(text: string): string {
    if text == "" then ""
    else if |text| >= 2 && text[0] == '\r' && text[1] == '\n' then "\n" + UnixText(text[2..])
    else [text[0]] + UnixText(text[1..])
  }

  /** Text without Windows line ends stays as it is. */
  lemma {:induction false} UnixTextKeepsOthers(text: string)
    requires forall i :: 0 <= i < |text| - 1 ==> !(text[i] == '\r' && text[i + 1] == '\n')
    ensures UnixText(text) == text
  {
    if text != "" {
      forall i | 0 <= i < |text[1..]| - 1 ensures !(text[1..][i] == '\r' && text[1..][i + 1] == '\n') {
        assert text[1..][i] == text[i + 1];
      }
      UnixTextKeepsOthers(text[1..]);
    }
  }

  /** A Windows line end counts as a newline, wherever it stands. */
  lemma {:induction false} UnixTextJoins(a: string, b: string)
    ensures UnixText(a + "\r\n" + b) == UnixText(a) + "\n" + UnixText(b)
    decreases |a|
  {
    var end, text := "\r\n", a + "\r\n" + b;
    assert end[0] == '\r' && end[1] == '\n' && |end| == 2;
    if a == "" {
      assert text[0] == '\r' && text[1] == '\n' && text[2..] == b;
    } else {
      assert text[0] == a[0] && text[1] == if |a| > 1 then a[1] else '\r';
      var n := if |a| >= 2 && a[0] == '\r' && a[1] == '\n' then 2 else 1;
      assert text[n..] == a[n..] + end + b;
      UnixTextJoins(a[n..], b);
    }
  }

  function SplitLines(text: string): (lines: seq<Line>)
    ensures |lines| >= 1
  {
    var parts := Split(UnixText(text), '\n');
    var n := |parts| - 1;
    if parts[n] != "" then parts else if n > 0 then parts[..n] else [""]
  }

  /** The lines are the text, up to one final newline. */
  lemma {:induction false} SplitLinesIsLossless(text: string)
    ensures var joined := Join(SplitLines(text), '\n');
      joined == UnixText(text) || joined + "\n" == UnixText(text)
    ensures forall i :: 0 <= i < |SplitLines(text)| ==> Free(SplitLines(text)[i], '\n')
  {
    var parts := Split(UnixText(text), '\n');
    SplitParts(UnixText(text), '\n');
    JoinOfSplit(UnixText(text), '\n');
    if parts[|parts| - 1] == "" && |parts| > 1 {
      JoinInit(parts);
    }
  }

  lemma {:induction false} JoinInit(parts: seq<string>)
    requires |parts| > 1 && parts[|parts| - 1] == ""
    ensures Join(parts, '\n') == Join(parts[..|parts| - 1], '\n') + "\n"
  {
    var n := |parts| - 1;
    if n > 1 {
      JoinInit(parts[1..]);
      assert parts[1..][..n - 1] == parts[..n][1..];
    } else {
      assert parts[1..] == [""] && parts[..n] == [parts[0]];
    }
  }

  /** The whole diff: lossless always, and optimal whenever the table is built. */
  method BuildSideBySideDiff(before: string, after: string) returns (left: seq<Row>, right: seq<Row>)
    ensures var a, b := SplitLines(before), SplitLines(after);
      && LosslessDiff(a, b, left, right)
      && (|a| * |b| <= TableLimit ==> OptimalDiff(a, b, left, right))
  {
    var a, b := SplitLines(before), SplitLines(after);
    if |a| * |b| > TableLimit {
      left, right := BuildSimpleDiff(a, b);
    } else {
      var dp := FillTable(a, b);
      left, right := Trace(a, b, dp);
      OptimalIsLossless(a, b, left, right);
    }
  }
}
