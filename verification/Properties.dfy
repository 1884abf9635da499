/** Line-level rewriting of .properties files, and the reader that shows the result. */
module Properties {
  import opened Options
  import opened Text
  import opened Iteration

  /******* Lines *******/

  predicate IsSep(c: char) {
    c == '=' || c == ':'
  }

  /** strings.IndexAny(line, "=:"), with the length of the line standing for "none". */
  function SepIndex(line: string): (n: nat)
    ensures n <= |line| && (n < |line| ==> IsSep(line[n]))
  {
    if line == "" || IsSep(line[0]) then 0 else 1 + SepIndex(line[1..])
  }

  predicate StartsWith(s: string, c: char) {
    s != "" && s[0] == c
  }

  /** The key for which the reader takes a line to be an assignment. */
  function ReaderKey(line: string): Option<string> {
    if Trim(line) == "" || StartsWith(Trim(line), '#') || SepIndex(line) == |line| then None
    else Some(Trim(line[..SepIndex(line)]))
  }

  /** The writer also takes lines that start with '!' for comments. */
  function WriterKey(line: string): Option<string> {
    if StartsWith(Trim(line), '!') then None else ReaderKey(line)
  }

  function Assignment(k: string, v: string): string {
    k + "=" + v
  }

  /******* The reader *******/

  function ReadLines(lines: seq<string>, key: string): Option<string> {
    if lines == [] then None
    else if ReaderKey(lines[0]) == Some(key) then Some(Trim(lines[0][SepIndex(lines[0]) + 1..]))
    else ReadLines(lines[1..], key)
  }

  function Read(content: string, key: string): Option<string> {
    ReadLines(Split(content, '\n'), key)
  }

  method ReadPropertiesKey(content: string, key: string) returns (value: Option<string>)
    ensures value == Read(content, key)
  {
    var lines := Split(content, '\n');
    for i := 0 to |lines|
      invariant Read(content, key) == ReadLines(lines[i..], key)
    {
      var line := lines[i];
      assert lines[i..][0] == line && lines[i..][1..] == lines[i + 1..];
      var trim := Trim(line);
      if trim == "" || StartsWith(trim, '#') {
        continue;
      }
      var sep := SepIndex(line);
      if sep == |line| {
        continue;
      }
      if Trim(line[..sep]) == key {
        return Some(Trim(line[sep + 1..]));
      }
    }
    value := None;
  }

  /******* The writer *******/

  /** Each key replaces the first line that assigns it, once. */
  function RewriteLines(lines: seq<string>, keys: map<string, string>): (r: seq<string>)
    ensures |r| == |lines|
  {
    if lines == [] then []
    else
      var k := WriterKey(lines[0]);
      if k.Some? && k.value in keys then
        [Assignment(k.value, keys[k.value])] + RewriteLines(lines[1..], keys - {k.value})
      else [lines[0]] + RewriteLines(lines[1..], keys)
  }

  /** The keys that no line assigns. */
  function Unassigned(lines: seq<string>, keys: map<string, string>): map<string, string> {
    if lines == [] then keys
    else
      var k := WriterKey(lines[0]);
      Unassigned(lines[1..], if k.Some? && k.value in keys then keys - {k.value} else keys)
  }

  function Appended(order: seq<string>, keys: map<string, string>): seq<string> {
    if order == [] then []
    else (if order[0] in keys then [Assignment(order[0], keys[order[0]])] else []) + Appended(order[1..], keys)
  }

  function Rewritten(content: string, kv: map<string, string>, order: seq<string>): seq<string> {
    var lines := Split(content, '\n');
    RewriteLines(lines, kv) + Appended(order, Unassigned(lines, kv))
  }

  function Rewrite(content: string, kv: map<string, string>, order: seq<string>): string {
    Join(Rewritten(content, kv, order), '\n')
  }

  /** The line is the first that assigns the key. */
  predicate AssignsFirst(lines: seq<string>, i: nat, k: string)
    requires i < |lines|
  {
    WriterKey(lines[i]) == Some(k) && forall j :: 0 <= j < i ==> WriterKey(lines[j]) != Some(k)
  }

  /** Exactly the first line of each overridden key is replaced; every other line, comments, blank lines and
      duplicates included, stays as it is in its place. */
  lemma {:induction false} OtherLinesStay(lines: seq<string>, keys: map<string, string>, i: nat)
    requires i < |lines|
    ensures forall k :: k in keys && AssignsFirst(lines, i, k) ==> RewriteLines(lines, keys)[i] == k + "=" + keys[k]
    ensures (forall k :: k in keys ==> !AssignsFirst(lines, i, k)) ==> RewriteLines(lines, keys)[i] == lines[i]
  {
    if i > 0 {
      var k := WriterKey(lines[0]);
      var left := if k.Some? && k.value in keys then keys - {k.value} else keys;
      OtherLinesStay(lines[1..], left, i - 1);
      forall l ensures AssignsFirst(lines, i, l) <==> AssignsFirst(lines[1..], i - 1, l) && k != Some(l) {
        FirstAmongRest(lines, i, l);
      }
    }
  }

  lemma FirstAmongRest(lines: seq<string>, i: nat, k: string)
    requires 0 < i < |lines|
    ensures AssignsFirst(lines, i, k) <==> AssignsFirst(lines[1..], i - 1, k) && WriterKey(lines[0]) != Some(k)
  {
    assert forall j :: 0 < j < |lines| ==> lines[1..][j - 1] == lines[j];
  }

  /** Left over are the keys that no line assigns, with their values. */
  lemma {:induction false} LeftOverKeys(lines: seq<string>, keys: map<string, string>, k: string)
    ensures k in Unassigned(lines, keys) <==>
      k in keys && forall i :: 0 <= i < |lines| ==> WriterKey(lines[i]) != Some(k)
    ensures k in Unassigned(lines, keys) ==> Unassigned(lines, keys)[k] == keys[k]
  {
    if lines != [] {
      var first := WriterKey(lines[0]);
      LeftOverKeys(lines[1..], if first.Some? && first.value in keys then keys - {first.value} else keys, k);
      assert forall i :: 0 < i < |lines| ==> lines[1..][i - 1] == lines[i];
    }
  }

  /** One turn of the loop: the line is replaced in place and its key leaves the map. */
  function ReplaceAt(lines: seq<string>, keys: map<string, string>, i: nat): (r: (seq<string>, map<string, string>))
    requires i < |lines|
    ensures |r.0| == |lines|
  {
    var k := WriterKey(lines[i]);
    if k.Some? && k.value in keys then (lines[i := Assignment(k.value, keys[k.value])], keys - {k.value})
    else (lines, keys)
  }

  function ReplaceFrom(lines: seq<string>, keys: map<string, string>, i: nat): (seq<string>, map<string, string>)
    requires i <= |lines|
    decreases |lines| - i
  {
    if i == |lines| then (lines, keys)
    else var r := ReplaceAt(lines, keys, i); ReplaceFrom(r.0, r.1, i + 1)
  }

  lemma {:induction false} ReplaceFromRewrites(lines: seq<string>, keys: map<string, string>, i: nat)
    requires i <= |lines|
    ensures ReplaceFrom(lines, keys, i).0 == lines[..i] + RewriteLines(lines[i..], keys)
    ensures ReplaceFrom(lines, keys, i).1 == Unassigned(lines[i..], keys)
    decreases |lines| - i
  {
    if i < |lines| {
      var r := ReplaceAt(lines, keys, i);
      ReplaceFromRewrites(r.0, r.1, i + 1);
      assert r.0[..i + 1] == lines[..i] + [r.0[i]];
      assert lines[i..][1..] == r.0[i + 1..];
    }
  }

  /** The loop of replaceProperties over the lines. */
  method ReplaceLines(all: seq<string>, kv: map<string, string>) returns (lines: seq<string>, keys: map<string, string>)
    ensures lines == RewriteLines(all, kv) && keys == Unassigned(all, kv)
  {
    lines, keys := all, kv;
    for i := 0 to |all|
      invariant |lines| == |all| && ReplaceFrom(all, kv, 0) == ReplaceFrom(lines, keys, i)
    {
      var key := AssignedKey(lines[i]);
      if key.Some? && key.value in keys {
        lines, keys := lines[i := Assignment(key.value, keys[key.value])], keys - {key.value};
      }
    }
    ReplaceFromRewrites(all, kv, 0);
    assert all[0..] == all;
  }

  /** The part of the loop that finds the key of a line, or skips it. */
  method AssignedKey(line: string) returns (key: Option<string>)
    ensures key == WriterKey(line)
  {
    var trim := Trim(line);
    if trim == "" || StartsWith(trim, '#') || StartsWith(trim, '!') {
      return None;
    }
    var sep := SepIndex(line);
    if sep == |line| {
      return None;
    }
    key := Some(Trim(line[..sep]));
  }

  /** replaceProperties; the order is the one in which the leftover keys are ranged over. */
  method ReplaceProperties(content: string, kv: map<string, string>, order: seq<string>) returns (text: string)
    requires IsOrder(kv.Keys, order)
    ensures text == Rewrite(content, kv, order)
    ensures WellFormed(kv) ==> forall k :: Read(text, k) == if k in kv then Some(Trim(kv[k])) else Read(content, k)
  {
    var lines, keys := ReplaceLines(Split(content, '\n'), kv);
    for i := 0 to |order|
      invariant Rewritten(content, kv, order) == lines + Appended(order[i..], keys)
    {
      assert order[i..][0] == order[i] && order[i..][1..] == order[i + 1..];
      if order[i] in keys {
        lines := lines + [Assignment(order[i], keys[order[i]])];
      }
    }
    assert lines + Appended([], keys) == lines;
    text := Join(lines, '\n');
    if WellFormed(kv) {
      ReadAfterRewrite(content, kv, order);
    }
  }

  /******* Well-formed overrides *******/

  predicate WellFormedKey(k: string) {
    Trimmed(k) && '=' !in k && ':' !in k && '\n' !in k && !StartsWith(k, '#') && !StartsWith(k, '!')
  }

  predicate WellFormed(kv: map<string, string>) {
    forall k :: k in kv ==> WellFormedKey(k) && '\n' !in kv[k]
  }

  lemma {:induction false} SepAfterKey(k: string, v: string)
    requires '=' !in k && ':' !in k
    ensures SepIndex(Assignment(k, v)) == |k|
  {
    if k != "" {
      assert Assignment(k, v)[1..] == Assignment(k[1..], v);
      SepAfterKey(k[1..], v);
    }
  }

  lemma {:induction false} NoSepBefore(line: string)
    ensures '=' !in line[..SepIndex(line)] && ':' !in line[..SepIndex(line)]
  {
    if line != "" && !IsSep(line[0]) {
      NoSepBefore(line[1..]);
      assert line[..SepIndex(line)] == [line[0]] + line[1..][..SepIndex(line[1..])];
    }
  }

  /** Appending to a text that is not blank keeps how it starts once trimmed. */
  lemma {:induction false} TrimStart(a: string, b: string)
    requires Trim(a) != ""
    ensures Trim(a + b) != "" && Trim(a + b)[0] == Trim(a)[0]
  {
    TrimLeftIsSuffix(a);
    TrimRightIsPrefix(TrimLeft(a));
    TrimLeftStart(a, b);
    TrimRightIsPrefix(TrimLeft(a) + b);
  }

  lemma {:induction false} TrimLeftStart(a: string, b: string)
    requires TrimLeft(a) != ""
    ensures TrimLeft(a + b) == TrimLeft(a) + b
  {
    if IsSpace(a[0]) {
      TrimLeftStart(a[1..], b);
      assert (a + b)[1..] == a[1..] + b;
    }
  }

  lemma {:induction false} AssignmentTrim(k: string, v: string)
    requires Trimmed(k)
    ensures var t := Trim(Assignment(k, v)); t != "" && t[0] == if k == "" then '=' else k[0]
  {
    TrimmedIsFixed(k);
    if k != "" {
      TrimStart(k, "=" + v);
      assert Assignment(k, v) == k + ("=" + v);
    } else {
      assert Assignment(k, v) == "=" + v;
      TrimmedIsFixed("=");
      TrimStart("=", v);
    }
  }

  /** An assignment of a well-formed key reads back as that key and value, to the reader and to the writer. */
  lemma {:induction false} AssignmentReads(k: string, v: string)
    requires Trimmed(k) && '=' !in k && ':' !in k && !StartsWith(k, '#')
    ensures ReaderKey(Assignment(k, v)) == Some(k)
    ensures WriterKey(Assignment(k, v)) == if StartsWith(k, '!') then None else Some(k)
    ensures Assignment(k, v)[SepIndex(Assignment(k, v)) + 1..] == v
  {
    SepAfterKey(k, v);
    AssignmentTrim(k, v);
    TrimmedIsFixed(k);
    assert Assignment(k, v)[..|k|] == k;
  }

  /** Every way of writing an assignment: white space around the key, '=' or ':', and white space around the value. */
  lemma SpacedAssignmentReads(a: string, k: string, b: string, sep: char, v: string)
    requires Blank(a) && Trimmed(k) && '=' !in k && ':' !in k && !StartsWith(k, '#') && Blank(b)
    requires sep == '=' || sep == ':'
    ensures ReadLines([a + k + b + [sep] + v], k) == Some(Trim(v))
    ensures forall other :: other != k ==> ReadLines([a + k + b + [sep] + v], other) == None
  {
    var head, line := a + k + b, a + k + b + [sep] + v;
    SepAfter(head, [sep] + v);
    assert line == head + ([sep] + v) && line[..|head|] == head && line[|head| + 1..] == v;
    TrimStrips(a, k, b);
    if k == "" {
      BlankPrefix(head, [sep] + v);
    } else {
      TrimStart(head, [sep] + v);
    }
  }

  lemma {:induction false} SepAfter(head: string, rest: string)
    requires '=' !in head && ':' !in head && rest != "" && IsSep(rest[0])
    ensures SepIndex(head + rest) == |head|
  {
    if head == "" {
      assert head + rest == rest;
    } else {
      assert (head + rest)[1..] == head[1..] + rest;
      SepAfter(head[1..], rest);
    }
  }

  /** Comments and lines without a separator assign nothing. */
  lemma OtherLinesAreSilent(a: string, rest: string, line: string, key: string)
    requires Blank(a)
    ensures ReadLines([a + "#" + rest], key) == None
    ensures '=' !in line && ':' !in line ==> ReadLines([line], key) == None
  {
    TrimStrips(a, "", "");
    assert a + "" + "" == a && a + "#" + rest == a + ("#" + rest);
    BlankPrefix(a, "#" + rest);
    if '=' !in line && ':' !in line {
      NoSep(line);
    }
  }

  lemma {:induction false} NoSep(line: string)
    requires '=' !in line && ':' !in line
    ensures SepIndex(line) == |line|
  {
    if line != "" {
      NoSep(line[1..]);
    }
  }

  /******* Reading after rewriting, on lines *******/

  lemma {:induction false} ReadAppend(a: seq<string>, b: seq<string>, key: string)
    ensures ReadLines(a + b, key) == if ReadLines(a, key).Some? then ReadLines(a, key) else ReadLines(b, key)
  {
    if a == [] {
      assert a + b == b;
    } else {
      assert (a + b)[1..] == a[1..] + b;
      ReadAppend(a[1..], b, key);
    }
  }

  lemma ReadFirst(line: string, rest: seq<string>, key: string)
    ensures ReadLines([line] + rest, key) ==
      if ReaderKey(line) == Some(key) then Some(Trim(line[SepIndex(line) + 1..])) else ReadLines(rest, key)
  {
    assert ([line] + rest)[1..] == rest;
  }

  /** Lines of other keys, and lines rewritten for other keys, do not matter to the reader. */
  lemma {:induction false} RewriteKeepsOthers(lines: seq<string>, keys: map<string, string>, key: string)
    requires WellFormed(keys) && key !in keys
    ensures ReadLines(RewriteLines(lines, keys), key) == ReadLines(lines, key)
  {
    if lines != [] {
      var k := WriterKey(lines[0]);
      var left := if k.Some? && k.value in keys then keys - {k.value} else keys;
      RewriteKeepsOthers(lines[1..], left, key);
      ReadFirst(RewriteLines(lines, keys)[0], RewriteLines(lines[1..], left), key);
      if k.Some? && k.value in keys {
        AssignmentReads(k.value, keys[k.value]);
      }
    }
  }

  /** The first line of an overridden key carries the new value; a key without a line is left over. */
  lemma {:induction false} RewriteSets(lines: seq<string>, keys: map<string, string>, key: string)
    requires WellFormed(keys) && key in keys
    ensures if key in Unassigned(lines, keys)
            then ReadLines(RewriteLines(lines, keys), key) == None && Unassigned(lines, keys)[key] == keys[key]
            else ReadLines(RewriteLines(lines, keys), key) == Some(Trim(keys[key]))
  {
    if lines != [] {
      var k := WriterKey(lines[0]);
      if k.Some? && k.value in keys {
        AssignmentReads(k.value, keys[k.value]);
        if k.value == key {
          UnassignedShrinks(lines[1..], keys - {key});
        } else {
          RewriteSets(lines[1..], keys - {k.value}, key);
        }
      } else {
        NotReadUnlessWritten(lines[0], key);
        RewriteSets(lines[1..], keys, key);
      }
    }
  }

  lemma {:induction false} UnassignedShrinks(lines: seq<string>, keys: map<string, string>)
    ensures forall k :: k in Unassigned(lines, keys) ==> k in keys && Unassigned(lines, keys)[k] == keys[k]
  {
    if lines != [] {
      var k := WriterKey(lines[0]);
      UnassignedShrinks(lines[1..], if k.Some? && k.value in keys then keys - {k.value} else keys);
    }
  }

  /** Reader and writer disagree about a line only for keys that start with '!'. */
  lemma {:induction false} NotReadUnlessWritten(line: string, key: string)
    requires WellFormedKey(key) && WriterKey(line) != Some(key)
    ensures ReaderKey(line) != Some(key)
  {
    if ReaderKey(line) == Some(key) {
      KeyStartsLine(line);
    }
  }

  lemma {:induction false} KeyStartsLine(line: string)
    requires ReaderKey(line).Some?
    ensures var k := ReaderKey(line).value;
      Trim(line) != "" && (if k == "" then IsSep(Trim(line)[0]) else Trim(line)[0] == k[0])
  {
    var n := SepIndex(line);
    assert line == line[..n] + line[n..];
    if Trim(line[..n]) != "" {
      TrimStart(line[..n], line[n..]);
    } else {
      assert !IsSpace(line[n]);
      BlankPrefix(line[..n], line[n..]);
    }
  }

  /** White space in front of a non-space is trimmed away. */
  lemma {:induction false} BlankPrefix(a: string, b: string)
    requires Trim(a) == "" && b != "" && !IsSpace(b[0])
    ensures Trim(a + b) != "" && Trim(a + b)[0] == b[0]
  {
    TrimLeftIsSuffix(a);
    TrimRightIsPrefix(TrimLeft(a));
    BlankTrimLeft(a, b);
    TrimRightIsPrefix(b);
  }

  lemma {:induction false} BlankTrimLeft(a: string, b: string)
    requires TrimLeft(a) == "" && b != "" && !IsSpace(b[0])
    ensures TrimLeft(a + b) == b
  {
    if a == "" {
      assert a + b == b;
    } else {
      assert (a + b)[1..] == a[1..] + b;
      BlankTrimLeft(a[1..], b);
    }
  }

  lemma {:induction false} AppendedReads(order: seq<string>, keys: map<string, string>, key: string)
    requires WellFormed(keys)
    ensures ReadLines(Appended(order, keys), key) == if key in keys && key in order then Some(Trim(keys[key])) else None
  {
    if order != [] {
      AppendedReads(order[1..], keys, key);
      if order[0] in keys {
        AssignmentReads(order[0], keys[order[0]]);
        assert Appended(order, keys)[1..] == Appended(order[1..], keys);
      } else {
        assert Appended(order, keys) == Appended(order[1..], keys);
      }
    }
  }

  /******* Back to text *******/

  predicate OneLine(line: string) {
    Free(line, '\n')
  }

  lemma {:induction false} RewriteLinesFree(lines: seq<string>, keys: map<string, string>)
    requires WellFormed(keys) && forall i :: 0 <= i < |lines| ==> OneLine(lines[i])
    ensures forall i :: 0 <= i < |lines| ==> OneLine(RewriteLines(lines, keys)[i])
  {
    if lines != [] {
      var k := WriterKey(lines[0]);
      RewriteLinesFree(lines[1..], if k.Some? && k.value in keys then keys - {k.value} else keys);
    }
  }

  lemma {:induction false} AppendedFree(order: seq<string>, keys: map<string, string>)
    requires WellFormed(keys)
    ensures forall i :: 0 <= i < |Appended(order, keys)| ==> OneLine(Appended(order, keys)[i])
  {
    if order != [] {
      AppendedFree(order[1..], keys);
    }
  }

  /** The rewritten text splits into the rewritten lines. */
  lemma RewriteSplits(content: string, kv: map<string, string>, order: seq<string>)
    requires WellFormed(kv)
    ensures Split(Rewrite(content, kv, order), '\n') == Rewritten(content, kv, order)
  {
    var lines := Split(content, '\n');
    SplitParts(content, '\n');
    RewriteLinesFree(lines, kv);
    UnassignedShrinks(lines, kv);
    AppendedFree(order, Unassigned(lines, kv));
    SplitOfJoin(Rewritten(content, kv, order), '\n');
  }

  /** The reader sees exactly the intended change: the new value at every overridden key, the old one elsewhere. */
  lemma ReadAfterRewrite(content: string, kv: map<string, string>, order: seq<string>)
    requires WellFormed(kv) && IsOrder(kv.Keys, order)
    ensures forall k :: Read(Rewrite(content, kv, order), k) == if k in kv then Some(Trim(kv[k])) else Read(content, k)
  {
    var lines := Split(content, '\n');
    var left := Unassigned(lines, kv);
    RewriteSplits(content, kv, order);
    UnassignedShrinks(lines, kv);
    forall k ensures Read(Rewrite(content, kv, order), k) == if k in kv then Some(Trim(kv[k])) else Read(content, k) {
      ReadAppend(RewriteLines(lines, kv), Appended(order, left), k);
      AppendedReads(order, left, k);
      if k in kv {
        RewriteSets(lines, kv, k);
      } else {
        RewriteKeepsOthers(lines, kv, k);
      }
    }
  }

  /******* Rewriting twice *******/

  /** The first line that assigns the key, as the writer sees it. */
  function FirstFor(lines: seq<string>, key: string): Option<string> {
    if lines == [] then None
    else if WriterKey(lines[0]) == Some(key) then Some(lines[0])
    else FirstFor(lines[1..], key)
  }

  predicate Settled(lines: seq<string>, keys: map<string, string>) {
    forall k :: k in keys ==> FirstFor(lines, k) == Some(Assignment(k, keys[k]))
  }

  lemma {:induction false} SettledIsFixed(lines: seq<string>, keys: map<string, string>)
    requires Settled(lines, keys)
    ensures RewriteLines(lines, keys) == lines && Unassigned(lines, keys) == map[]
  {
    if lines != [] {
      var k := WriterKey(lines[0]);
      if k.Some? && k.value in keys {
        SettledIsFixed(lines[1..], keys - {k.value});
      } else {
        SettledIsFixed(lines[1..], keys);
      }
    } else {
      assert keys.Keys == {};
    }
  }

  lemma {:induction false} FirstAppend(a: seq<string>, b: seq<string>, key: string)
    ensures FirstFor(a + b, key) == if FirstFor(a, key).Some? then FirstFor(a, key) else FirstFor(b, key)
  {
    if a == [] {
      assert a + b == b;
    } else {
      assert (a + b)[1..] == a[1..] + b;
      FirstAppend(a[1..], b, key);
    }
  }

  lemma {:induction false} RewriteSettles(lines: seq<string>, keys: map<string, string>, key: string)
    requires WellFormed(keys) && key in keys
    ensures FirstFor(RewriteLines(lines, keys), key) ==
      if key in Unassigned(lines, keys) then None else Some(Assignment(key, keys[key]))
  {
    if lines != [] {
      var k := WriterKey(lines[0]);
      if k.Some? && k.value in keys {
        AssignmentReads(k.value, keys[k.value]);
        if k.value == key {
          UnassignedShrinks(lines[1..], keys - {key});
        } else {
          RewriteSettles(lines[1..], keys - {k.value}, key);
        }
      } else {
        RewriteSettles(lines[1..], keys, key);
      }
    }
  }

  lemma {:induction false} AppendedSettles(order: seq<string>, keys: map<string, string>, key: string)
    requires WellFormed(keys) && key in keys && key in order
    ensures FirstFor(Appended(order, keys), key) == Some(Assignment(key, keys[key]))
  {
    if order[0] in keys {
      AssignmentReads(order[0], keys[order[0]]);
      assert Appended(order, keys)[1..] == Appended(order[1..], keys);
    } else {
      assert Appended(order, keys) == Appended(order[1..], keys);
    }
    if order[0] != key {
      AppendedSettles(order[1..], keys, key);
    }
  }

  lemma {:induction false} NothingAppended(order: seq<string>)
    ensures Appended(order, map[]) == []
  {
    if order != [] {
      NothingAppended(order[1..]);
    }
  }

  /** Rewriting twice, whatever the two iteration orders, gives the same text as rewriting once. */
  lemma RewriteTwice(content: string, kv: map<string, string>, order: seq<string>, again: seq<string>)
    requires WellFormed(kv) && IsOrder(kv.Keys, order) && IsOrder(kv.Keys, again)
    ensures Rewrite(Rewrite(content, kv, order), kv, again) == Rewrite(content, kv, order)
  {
    var lines := Split(content, '\n');
    var left := Unassigned(lines, kv);
    var out := Rewritten(content, kv, order);
    RewriteSplits(content, kv, order);
    UnassignedShrinks(lines, kv);
    forall k | k in kv ensures FirstFor(out, k) == Some(Assignment(k, kv[k])) {
      FirstAppend(RewriteLines(lines, kv), Appended(order, left), k);
      RewriteSettles(lines, kv, k);
      if k in left {
        AppendedSettles(order, left, k);
      }
    }
    SettledIsFixed(out, kv);
    NothingAppended(again);
    assert Rewritten(Rewrite(content, kv, order), kv, again) == out;
  }

  /******* Exactly which keys can be overridden *******/

  /** A key the reader can never find. */
  predicate Unreadable(k: string) {
    !Trimmed(k) || '=' in k || ':' in k || '\n' in k || StartsWith(k, '#')
  }

  lemma {:induction false} UnreadableIsNeverRead(lines: seq<string>, key: string)
    requires Unreadable(key) && forall i :: 0 <= i < |lines| ==> OneLine(lines[i])
    ensures ReadLines(lines, key) == None
  {
    if lines != [] {
      if ReaderKey(lines[0]) == Some(key) {
        ReaderKeyIsReadable(lines[0]);
      }
      UnreadableIsNeverRead(lines[1..], key);
    }
  }

  lemma {:induction false} ReaderKeyIsReadable(line: string)
    requires OneLine(line) && ReaderKey(line).Some?
    ensures !Unreadable(ReaderKey(line).value)
  {
    var raw := line[..SepIndex(line)];
    var k := Trim(raw);
    TrimIsTrimmed(raw);
    NoSepBefore(line);
    KeyStartsLine(line);
    forall c | c in k ensures c in raw {
      TrimKeeps(raw, c);
    }
  }

  /** For a key starting with '!', a line the writer takes for a comment hides the appended assignment. */
  lemma {:induction false} CommentedKeyHides(k: string, x: string, kv: map<string, string>, order: seq<string>)
    requires !Unreadable(k) && StartsWith(k, '!') && OneLine(x) && k in kv
    ensures Read(Rewrite(Assignment(k, x), kv, order), k) == Some(Trim(x))
  {
    var line := Assignment(k, x);
    AssignmentReads(k, x);
    SplitWhole(line, '\n');
    var rest := Appended(order, Unassigned([line], kv));
    assert RewriteLines([line], kv) == [line];
    assert Rewritten(line, kv, order) == [line] + rest;
    FirstLineIsRead(line, rest, k);
  }

  lemma FirstLineIsRead(line: string, rest: seq<string>, k: string)
    requires OneLine(line) && ReaderKey(line) == Some(k)
    ensures Read(Join([line] + rest, '\n'), k) == Some(Trim(line[SepIndex(line) + 1..]))
  {
    if rest == [] {
      SplitWhole(line, '\n');
    } else {
      assert ([line] + rest)[1..] == rest;
      SplitFirst(line, Join(rest, '\n'), '\n');
    }
  }

  ghost predicate AlwaysReadsBack(kv: map<string, string>, k: string)
    requires k in kv
  {
    forall content, order :: IsOrder(kv.Keys, order) ==> Read(Rewrite(content, kv, order), k) == Some(Trim(kv[k]))
  }

  /******* Values with newlines *******/

  /** The value shows in full on the line of its key. */
  predicate ShowsInFull(v: string) {
    Trim(Split(v, '\n')[0]) == Trim(v)
  }

  /** What the further lines of a value, read by themselves, assign to a key. */
  function Injected(v: string, key: string): Option<string> {
    ReadLines(Split(v, '\n')[1..], key)
  }

  /** Each value shows in full, and none of its further lines assigns another overridden key a wrong value. */
  predicate SoundValues(kv: map<string, string>) {
    && (forall k :: k in kv ==> ShowsInFull(kv[k]))
    && forall l, k :: l in kv && k in kv && l != k ==>
         Injected(kv[l], k) == None || Injected(kv[l], k) == Some(Trim(kv[k]))
  }

  predicate KeysWellFormed(kv: map<string, string>) {
    forall k :: k in kv ==> WellFormedKey(k)
  }

  /** The lines of a text whose lines may contain newlines. */
  function Flat(lines: seq<string>): seq<string> {
    if lines == [] then [] else Split(lines[0], '\n') + Flat(lines[1..])
  }

  lemma {:induction false} SplitOfJoinFlat(lines: seq<string>)
    requires lines != []
    ensures Split(Join(lines, '\n'), '\n') == Flat(lines)
  {
    if |lines| == 1 {
      assert Flat(lines) == Split(lines[0], '\n') + Flat([]);
    } else {
      SplitOfJoinFlat(lines[1..]);
      SplitConcat(lines[0], Join(lines[1..], '\n'), '\n');
    }
  }

  lemma {:induction false} FlatAppend(a: seq<string>, b: seq<string>)
    ensures Flat(a + b) == Flat(a) + Flat(b)
  {
    if a == [] {
      assert a + b == b;
    } else {
      assert (a + b)[0] == a[0] && (a + b)[1..] == a[1..] + b;
      FlatAppend(a[1..], b);
    }
  }

  /** What the reader finds in the assignment of a well-formed key. */
  lemma BlockReads(l: string, v: string, key: string)
    requires WellFormedKey(l)
    ensures ReadLines(Split(Assignment(l, v), '\n'), key) == if key == l then Some(Trim(Split(v, '\n')[0]))
      else Injected(v, key)
  {
    var first, rest := Split(v, '\n')[0], Split(v, '\n')[1..];
    SplitExtends(l + "=", v, '\n');
    assert Assignment(l, v) == (l + "=") + v && (l + "=") + first == Assignment(l, first);
    AssignmentReads(l, first);
    ReadFirst(Assignment(l, first), rest, key);
  }

  predicate RightOrNone(r: Option<string>, v: string) {
    r == None || r == Some(Trim(v))
  }

  lemma SoundBlock(kv: map<string, string>, l: string, key: string)
    requires KeysWellFormed(kv) && SoundValues(kv) && l in kv && key in kv
    ensures var r := ReadLines(Split(Assignment(l, kv[l]), '\n'), key);
      RightOrNone(r, kv[key]) && (l == key ==> r == Some(Trim(kv[key])))
  {
    BlockReads(l, kv[l], key);
    assert ShowsInFull(kv[l]);
  }

  predicate Within(keys: map<string, string>, kv: map<string, string>) {
    forall k :: k in keys ==> k in kv && keys[k] == kv[k]
  }

  /** Before the line of a key is reached, only right values can show; that line itself shows it. */
  lemma {:induction false} SoundRewrite(lines: seq<string>, keys: map<string, string>, kv: map<string, string>,
                                        key: string)
    requires KeysWellFormed(kv) && SoundValues(kv) && Within(keys, kv) && key in keys
    requires forall i :: 0 <= i < |lines| ==> OneLine(lines[i])
    ensures var r := ReadLines(Flat(RewriteLines(lines, keys)), key);
      RightOrNone(r, kv[key]) && (key !in Unassigned(lines, keys) ==> r == Some(Trim(kv[key])))
  {
    if lines != [] {
      var k := WriterKey(lines[0]);
      if k.Some? && k.value in keys {
        var left := keys - {k.value};
        SoundBlock(kv, k.value, key);
        ReadAppend(Split(Assignment(k.value, keys[k.value]), '\n'), Flat(RewriteLines(lines[1..], left)), key);
        if k.value != key {
          SoundRewrite(lines[1..], left, kv, key);
        }
      } else {
        NotReadUnlessWritten(lines[0], key);
        SplitWhole(lines[0], '\n');
        ReadFirst(lines[0], Flat(RewriteLines(lines[1..], keys)), key);
        SoundRewrite(lines[1..], keys, kv, key);
      }
    }
  }

  lemma {:induction false} SoundAppended(order: seq<string>, keys: map<string, string>, kv: map<string, string>,
                                         key: string)
    requires KeysWellFormed(kv) && SoundValues(kv) && Within(keys, kv) && key in kv
    ensures var r := ReadLines(Flat(Appended(order, keys)), key);
      RightOrNone(r, kv[key]) && (key in keys && key in order ==> r == Some(Trim(kv[key])))
  {
    if order != [] {
      SoundAppended(order[1..], keys, kv, key);
      if order[0] in keys {
        SoundBlock(kv, order[0], key);
        assert Appended(order, keys)[1..] == Appended(order[1..], keys);
        ReadAppend(Split(Assignment(order[0], keys[order[0]]), '\n'), Flat(Appended(order[1..], keys)), key);
      } else {
        assert Appended(order, keys) == Appended(order[1..], keys);
      }
    }
  }

  lemma SoundReadsBack(content: string, kv: map<string, string>, order: seq<string>, key: string)
    requires KeysWellFormed(kv) && SoundValues(kv) && IsOrder(kv.Keys, order) && key in kv
    ensures Read(Rewrite(content, kv, order), key) == Some(Trim(kv[key]))
  {
    var lines := Split(content, '\n');
    var left := Unassigned(lines, kv);
    SplitParts(content, '\n');
    UnassignedShrinks(lines, kv);
    SplitOfJoinFlat(Rewritten(content, kv, order));
    FlatAppend(RewriteLines(lines, kv), Appended(order, left));
    ReadAppend(Flat(RewriteLines(lines, kv)), Flat(Appended(order, left)), key);
    SoundRewrite(lines, kv, kv, key);
    SoundAppended(order, left, kv, key);
  }

  /** In a file whose only line assigns l, what the reader finds first comes from the new assignment of l. */
  lemma FirstBlockDecides(kv: map<string, string>, order: seq<string>, l: string, key: string)
    requires WellFormedKey(l) && l in kv && ReadLines(Split(Assignment(l, kv[l]), '\n'), key).Some?
    ensures Read(Rewrite(Assignment(l, ""), kv, order), key) == ReadLines(Split(Assignment(l, kv[l]), '\n'), key)
  {
    var line := Assignment(l, "");
    AssignmentReads(l, "");
    SplitWhole(line, '\n');
    var rest := Appended(order, Unassigned([line], kv));
    var head := [Assignment(l, kv[l])];
    assert RewriteLines([line], kv) == head + RewriteLines([], kv - {l});
    assert Rewritten(line, kv, order) == head + rest;
    SplitOfJoinFlat(head + rest);
    FlatAppend(head, rest);
    assert Flat(head) == Split(Assignment(l, kv[l]), '\n') + Flat([]);
    ReadAppend(Split(Assignment(l, kv[l]), '\n'), Flat(rest), key);
  }

  lemma UnsoundValueIsLost(kv: map<string, string>) returns (key: string)
    requires KeysWellFormed(kv) && !SoundValues(kv)
    ensures key in kv && !AlwaysReadsBack(kv, key)
  {
    var order := SomeOrder(kv.Keys);
    var l: string;
    if k :| k in kv && !ShowsInFull(kv[k]) {
      l, key := k, k;
    } else {
      l, key :| l in kv && key in kv && l != key && Injected(kv[l], key) != None
        && Injected(kv[l], key) != Some(Trim(kv[key]));
    }
    BlockReads(l, kv[l], key);
    FirstBlockDecides(kv, order, l, key);
    assert Read(Rewrite(Assignment(l, ""), kv, order), key) != Some(Trim(kv[key]));
  }

  /** Every overridden key reads back after every rewrite of every text if and only if all keys are well-formed, all
      values show in full, and no further line of a value assigns another overridden key a wrong value. */
  lemma ReadsBackExactlyWhenSound(kv: map<string, string>)
    ensures (forall k :: k in kv ==> AlwaysReadsBack(kv, k)) <==> KeysWellFormed(kv) && SoundValues(kv)
  {
    if KeysWellFormed(kv) && SoundValues(kv) {
      forall k, content, order | k in kv && IsOrder(kv.Keys, order)
        ensures Read(Rewrite(content, kv, order), k) == Some(Trim(kv[k]))
      {
        SoundReadsBack(content, kv, order, k);
      }
    } else if KeysWellFormed(kv) {
      var key := UnsoundValueIsLost(kv);
      assert !AlwaysReadsBack(kv, key);
    } else {
      var k :| k in kv && !WellFormedKey(k);
      IllFormedKeyIsLost(kv, k);
    }
  }

  /******* Exactly the intended change *******/

  /** No further line of a value assigns a key outside the override. */
  ghost predicate Contained(kv: map<string, string>) {
    forall l, key :: l in kv && key !in kv ==> Injected(kv[l], key) == None
  }

  /** The reader sees the new value at every overridden key and what it saw before at all others. */
  ghost predicate ExactChange(kv: map<string, string>, content: string, order: seq<string>) {
    forall key :: Read(Rewrite(content, kv, order), key) == if key in kv then Some(Trim(kv[key]))
      else Read(content, key)
  }

  lemma {:induction false} ContainedRewrite(lines: seq<string>, keys: map<string, string>, kv: map<string, string>,
                                            key: string)
    requires KeysWellFormed(kv) && Contained(kv) && Within(keys, kv) && key !in kv
    requires forall i :: 0 <= i < |lines| ==> OneLine(lines[i])
    ensures ReadLines(Flat(RewriteLines(lines, keys)), key) == ReadLines(lines, key)
  {
    if lines != [] {
      var k := WriterKey(lines[0]);
      var left := if k.Some? && k.value in keys then keys - {k.value} else keys;
      ContainedRewrite(lines[1..], left, kv, key);
      if k.Some? && k.value in keys {
        BlockReads(k.value, kv[k.value], key);
        ReadAppend(Split(Assignment(k.value, keys[k.value]), '\n'), Flat(RewriteLines(lines[1..], left)), key);
      } else {
        SplitWhole(lines[0], '\n');
        ReadFirst(lines[0], Flat(RewriteLines(lines[1..], keys)), key);
      }
    }
  }

  lemma {:induction false} ContainedAppended(order: seq<string>, keys: map<string, string>, kv: map<string, string>,
                                             key: string)
    requires KeysWellFormed(kv) && Contained(kv) && Within(keys, kv) && key !in kv
    ensures ReadLines(Flat(Appended(order, keys)), key) == None
  {
    if order != [] {
      ContainedAppended(order[1..], keys, kv, key);
      if order[0] in keys {
        BlockReads(order[0], kv[order[0]], key);
        assert Appended(order, keys)[1..] == Appended(order[1..], keys);
        ReadAppend(Split(Assignment(order[0], keys[order[0]]), '\n'), Flat(Appended(order[1..], keys)), key);
      } else {
        assert Appended(order, keys) == Appended(order[1..], keys);
      }
    }
  }

  lemma ContainedKeepsOthers(content: string, kv: map<string, string>, order: seq<string>, key: string)
    requires KeysWellFormed(kv) && Contained(kv) && key !in kv
    ensures Read(Rewrite(content, kv, order), key) == Read(content, key)
  {
    var lines := Split(content, '\n');
    var left := Unassigned(lines, kv);
    SplitParts(content, '\n');
    UnassignedShrinks(lines, kv);
    SplitOfJoinFlat(Rewritten(content, kv, order));
    FlatAppend(RewriteLines(lines, kv), Appended(order, left));
    ReadAppend(Flat(RewriteLines(lines, kv)), Flat(Appended(order, left)), key);
    ContainedRewrite(lines, kv, kv, key);
    ContainedAppended(order, left, kv, key);
  }

  /** A line that a value adds for a key outside the override shows in a file that did not have it. */
  lemma InjectedLineShows(kv: map<string, string>, order: seq<string>, l: string, key: string)
    requires KeysWellFormed(kv) && l in kv && key !in kv && Injected(kv[l], key) != None
    ensures !ExactChange(kv, Assignment(l, ""), order)
  {
    var content := Assignment(l, "");
    BlockReads(l, kv[l], key);
    FirstBlockDecides(kv, order, l, key);
    AssignmentReads(l, "");
    SplitWhole(content, '\n');
    assert ReadLines([content], key) == None;
    assert Read(Rewrite(content, kv, order), key) != Read(content, key);
  }

  /** In every text and every order the reader sees exactly the intended change if and only if all keys are well-formed,
      all values show in full, and no further line of a value assigns another overridden key a wrong value or a key
      outside the override anything at all. */
  lemma IntendedChangeExactlyWhen(kv: map<string, string>)
    ensures (forall content, order :: IsOrder(kv.Keys, order) ==> ExactChange(kv, content, order)) <==>
      KeysWellFormed(kv) && SoundValues(kv) && Contained(kv)
  {
    if KeysWellFormed(kv) && SoundValues(kv) && Contained(kv) {
      forall content, order | IsOrder(kv.Keys, order) ensures ExactChange(kv, content, order) {
        forall key ensures Read(Rewrite(content, kv, order), key) == if key in kv then Some(Trim(kv[key]))
          else Read(content, key) {
          if key in kv {
            SoundReadsBack(content, kv, order, key);
          } else {
            ContainedKeepsOthers(content, kv, order, key);
          }
        }
      }
    } else if KeysWellFormed(kv) && SoundValues(kv) {
      var l, key :| l in kv && key !in kv && Injected(kv[l], key) != None;
      var order := SomeOrder(kv.Keys);
      InjectedLineShows(kv, order, l, key);
    } else {
      ReadsBackExactlyWhenSound(kv);
      var k :| k in kv && !AlwaysReadsBack(kv, k);
      var content, order :| IsOrder(kv.Keys, order) && Read(Rewrite(content, kv, order), k) != Some(Trim(kv[k]));
      assert !ExactChange(kv, content, order);
    }
  }

  /** One-line values meet the conditions on values. */
  lemma OneLineValuesAreSound(kv: map<string, string>)
    requires forall k :: k in kv ==> '\n' !in kv[k]
    ensures SoundValues(kv) && Contained(kv)
  {
    forall k | k in kv ensures Split(kv[k], '\n') == [kv[k]] {
      SplitWhole(kv[k], '\n');
    }
  }

  lemma IllFormedKeyIsLost(kv: map<string, string>, k: string)
    requires k in kv && !WellFormedKey(k)
    ensures !AlwaysReadsBack(kv, k)
  {
    var order := SomeOrder(kv.Keys);
    if Unreadable(k) {
      var text := Rewrite("", kv, order);
      SplitParts(text, '\n');
      UnreadableIsNeverRead(Split(text, '\n'), k);
      assert Read(text, k) == None;
    } else {
      var x := if Trim(kv[k]) == "a" then "b" else "a";
      CommentedKeyHides(k, x, kv, order);
      TrimmedIsFixed(x);
      assert Read(Rewrite(Assignment(k, x), kv, order), k) != Some(Trim(kv[k]));
    }
  }
}
