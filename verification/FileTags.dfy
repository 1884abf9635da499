/** Platform tags of files: a canonical form, its text form, and matching against a target. */
module FileTags {
  import opened Text

  const All := "*"
  const AllAlias := "all"

  /******* Reading tags *******/

  predicate TagSep(c: char) {
    c == ',' || c == ';' || c == '\n' || c == '\t' || c == ' '
  }

  /** Every separator counts as a comma. */
  function Commas(s: string): string {
    if s == "" then "" else [if TagSep(s[0]) then ',' else s[0]] + Commas(s[1..])
  }

  /** The tag that a part of the input stands for; blank parts stand for none and are dropped. */
  function Canon(part: string): string {
    var tag := Lower(Trim(part));
    if tag == AllAlias then All else tag
  }

  function Canons(parts: seq<string>): seq<string> {
    if parts == [] then []
    else (if Canon(parts[0]) == "" then [] else [Canon(parts[0])]) + Canons(parts[1..])
  }

  function Tags(input: seq<string>): seq<string> {
    if input == [] then [] else Canons(Split(Commas(input[0]), ',')) + Tags(input[1..])
  }

  /** Commas, semicolons, newlines, tabs and spaces separate tags. */
  lemma SeparatorsSplitTags(a: string, sep: char, b: string)
    requires sep in ",;\n\t "
    ensures Tags([a + [sep] + b]) == Tags([a]) + Tags([b])
  {
    CommasAppend(a, [sep] + b);
    CommasAppend([sep], b);
    assert a + [sep] + b == a + ([sep] + b);
    assert Commas([sep]) == ",";
    SplitConcat(Commas(a), Commas(b), ',');
    assert Commas(a) + ("," + Commas(b)) == Commas(a) + [','] + Commas(b);
    CanonsAppend(Split(Commas(a), ','), Split(Commas(b), ','));
    OneInput(a + [sep] + b);
    OneInput(a);
    OneInput(b);
  }

  /** A word is one tag in lower case; "all" is the wildcard, and a blank word is none. */
  lemma WordIsOneTag(word: string)
    requires forall c :: c in word ==> c !in ",;\n\t "
    ensures var tag := Lower(Trim(word));
      Tags([word]) == if tag == "" then [] else if tag == "all" then ["*"] else [tag]
  {
    NoCommas(word);
    SplitWhole(word, ',');
    OneInput(word);
    assert [word][1..] == [];
  }

  lemma OneInput(s: string)
    ensures Tags([s]) == Canons(Split(Commas(s), ','))
  {
    assert [s][1..] == [];
  }

  lemma {:induction false} CommasAppend(a: string, b: string)
    ensures Commas(a + b) == Commas(a) + Commas(b)
  {
    if a == "" {
      assert a + b == b;
    } else {
      assert (a + b)[1..] == a[1..] + b;
      CommasAppend(a[1..], b);
    }
  }

  lemma {:induction false} CanonsAppend(a: seq<string>, b: seq<string>)
    ensures Canons(a + b) == Canons(a) + Canons(b)
  {
    if a == [] {
      assert a + b == b;
    } else {
      assert (a + b)[1..] == a[1..] + b;
      CanonsAppend(a[1..], b);
    }
  }

  lemma {:induction false} NoCommas(word: string)
    requires forall c :: c in word ==> !TagSep(c)
    ensures Commas(word) == word && Free(word, ',')
  {
    if word != "" {
      assert word[0] in word && forall c :: c in word[1..] ==> c in word;
      NoCommas(word[1..]);
      assert word == [word[0]] + word[1..];
    }
  }

  /******* Sorting *******/

  /** The order of sort.Strings. */
  predicate Less(a: string, b: string) {
    b != "" && (a == "" || a[0] < b[0] || (a[0] == b[0] && Less(a[1..], b[1..])))
  }

  lemma {:induction false} LessIsOrder(a: string, b: string, c: string)
    ensures !Less(a, a)
    ensures a == b || Less(a, b) || Less(b, a)
    ensures Less(a, b) && Less(b, c) ==> Less(a, c)
  {
    if a != "" && b != "" && c != "" {
      LessIsOrder(a[1..], b[1..], c[1..]);
    } else if a != "" && b != "" {
      LessIsOrder(a[1..], b[1..], "");
    } else if a != "" {
      LessIsOrder(a[1..], "", "");
    }
    if a != "" && b != "" && a[0] == b[0] && a[1..] == b[1..] {
      assert a == [a[0]] + a[1..] && b == [b[0]] + b[1..];
    }
  }

  predicate Ascending(s: seq<string>) {
    |s| >= 2 ==> Less(s[0], s[1]) && Ascending(s[1..])
  }

  function Insert(x: string, s: seq<string>): seq<string> {
    if s == [] || Less(x, s[0]) then [x] + s
    else if x == s[0] then s
    else [s[0]] + Insert(x, s[1..])
  }

  /** Sorted, without duplicates. */
  function SortedSet(tags: seq<string>): seq<string> {
    if tags == [] then [] else Insert(tags[0], SortedSet(tags[1..]))
  }

  lemma {:induction false} InsertAscends(x: string, s: seq<string>)
    requires Ascending(s)
    ensures Ascending(Insert(x, s)) && forall t :: t in Insert(x, s) <==> t == x || t in s
  {
    if s != [] && !Less(x, s[0]) && x != s[0] {
      LessIsOrder(x, s[0], "");
      InsertAscends(x, s[1..]);
      assert s == [s[0]] + s[1..];
      assert Insert(x, s)[1..] == Insert(x, s[1..]);
    } else if s == [] || Less(x, s[0]) {
      assert ([x] + s)[1..] == s;
    }
  }

  lemma {:induction false} SortedSetAscends(tags: seq<string>)
    ensures Ascending(SortedSet(tags)) && forall t :: t in SortedSet(tags) <==> t in tags
  {
    if tags != [] {
      SortedSetAscends(tags[1..]);
      InsertAscends(tags[0], SortedSet(tags[1..]));
      assert tags == [tags[0]] + tags[1..];
    }
  }

  /** The first of an ascending list is less than all others. */
  lemma {:induction false} FirstIsLeast(s: seq<string>, t: string)
    requires Ascending(s) && s != [] && t in s[1..]
    ensures Less(s[0], t)
  {
    var rest := s[1..];
    if t != rest[0] {
      assert rest == [rest[0]] + rest[1..];
      FirstIsLeast(rest, t);
      LessIsOrder(s[0], rest[0], t);
    }
  }

  /** An ascending list is determined by its elements. */
  lemma {:induction false} AscendingUnique(s: seq<string>, t: seq<string>)
    requires Ascending(s) && Ascending(t) && forall x :: x in s <==> x in t
    ensures s == t
  {
    if s == [] {
      FirstIsIn(t);
    } else {
      assert s[0] in t && t != [];
      assert t[0] in s;
      assert s == [s[0]] + s[1..] && t == [t[0]] + t[1..];
      SameFirst(s, t);
      forall x ensures x in s[1..] <==> x in t[1..] {
        InTail(s, x);
        InTail(t, x);
      }
      AscendingUnique(s[1..], t[1..]);
    }
  }

  lemma FirstIsIn(s: seq<string>)
    ensures s == [] || s[0] in s
  {
  }

  lemma InTail(s: seq<string>, x: string)
    requires Ascending(s) && s != []
    ensures x in s[1..] <==> x in s && x != s[0]
  {
    assert s == [s[0]] + s[1..];
    if x == s[0] && x in s[1..] {
      FirstIsLeast(s, x);
      LessIsOrder(x, x, x);
    }
  }

  lemma SameFirst(s: seq<string>, t: seq<string>)
    requires Ascending(s) && Ascending(t) && s != [] && t != [] && s[0] in t && t[0] in s
    ensures s[0] == t[0]
  {
    if s[0] != t[0] {
      assert s == [s[0]] + s[1..] && t == [t[0]] + t[1..];
      FirstIsLeast(s, t[0]);
      FirstIsLeast(t, s[0]);
      LessIsOrder(s[0], t[0], s[0]);
    }
  }

  /******* The canonical form *******/

  function Normalized(input: seq<string>): seq<string> {
    var tags := Tags(input);
    if tags == [] || All in tags then [All] else SortedSet(tags)
  }

  /** Normalize: tags are collected in a set, taken out in any order, and sorted. */
  method Normalize(input: seq<string>) returns (out: seq<string>)
    ensures out == Normalized(input)
    ensures Canonical(out)
  {
    NormalizedIsCanonical(input);
    var seen := Collect(input);
    if seen == {} || All in seen {
      assert Tags(input) != [] ==> Tags(input)[0] in seen;
      return [All];
    }
    out := [];
    var todo := seen;
    while todo != {}
      invariant todo <= seen && Ascending(out)
      invariant forall t :: t in out <==> t in seen && t !in todo
      decreases todo
    {
      var tag :| tag in todo;
      InsertAscends(tag, out);
      out := Insert(tag, out);
      todo := todo - {tag};
    }
    SortedSetAscends(Tags(input));
    AscendingUnique(out, SortedSet(Tags(input)));
  }

  method Collect(input: seq<string>) returns (seen: set<string>)
    ensures forall t :: t in seen <==> t in Tags(input)
  {
    seen := {};
    for i := 0 to |input|
      invariant forall t :: t in Tags(input) <==> t in seen || t in Tags(input[i..])
    {
      assert input[i..][0] == input[i] && input[i..][1..] == input[i + 1..];
      var parts := Split(Commas(input[i]), ',');
      var more := CollectParts(parts);
      seen := seen + more;
    }
  }

  method CollectParts(parts: seq<string>) returns (seen: set<string>)
    ensures forall t :: t in seen <==> t in Canons(parts)
  {
    seen := {};
    for i := 0 to |parts|
      invariant forall t :: t in Canons(parts) <==> t in seen || t in Canons(parts[i..])
    {
      assert parts[i..][0] == parts[i] && parts[i..][1..] == parts[i + 1..];
      var tag := Canon(parts[i]);
      if tag != "" {
        seen := seen + {tag};
      }
    }
  }

  function JoinTags(tags: seq<string>): string {
    Join(Normalized(tags), ',')
  }

  function SplitTags(s: string): seq<string> {
    Normalized([s])
  }

  /** A tag as the canonical form lists it. */
  predicate CleanTag(t: string) {
    && t != "" && t != AllAlias && Trimmed(t) && Lower(t) == t
    && forall i :: 0 <= i < |t| ==> !TagSep(t[i])
  }

  predicate AllClean(tags: seq<string>) {
    forall i :: 0 <= i < |tags| ==> CleanTag(tags[i])
  }

  /** The single wildcard, or a strictly ascending list of tags without it. */
  predicate Canonical(tags: seq<string>) {
    tags == [All] || (tags != [] && Ascending(tags) && All !in tags && AllClean(tags))
  }

  lemma {:induction false} LowerAt(s: string, i: nat)
    requires i < |s|
    ensures Lower(s)[i] == LowerChar(s[i])
  {
    if i > 0 {
      LowerAt(s[1..], i - 1);
    }
  }

  lemma {:induction false} LowerTwice(s: string)
    ensures Lower(Lower(s)) == Lower(s)
  {
    if s != "" {
      LowerTwice(s[1..]);
    }
  }

  lemma LowerKeepsKind(c: char)
    ensures IsSpace(LowerChar(c)) == IsSpace(c) && TagSep(LowerChar(c)) == TagSep(c)
  {
  }

  predicate NoSep(s: string) {
    forall c :: c in s ==> !TagSep(c)
  }

  lemma {:induction false} CommasHasNoOther(s: string)
    ensures forall c :: c in Commas(s) && TagSep(c) ==> c == ','
  {
    if s != "" {
      CommasHasNoOther(s[1..]);
    }
  }

  lemma {:induction false} LowerKeepsNoSep(t: string)
    requires NoSep(t)
    ensures forall i :: 0 <= i < |t| ==> !TagSep(Lower(t)[i])
  {
    if t != "" {
      LowerKeepsKind(t[0]);
      LowerKeepsNoSep(t[1..]);
    }
  }

  lemma LowerKeepsTrimmed(t: string)
    requires Trimmed(t)
    ensures Trimmed(Lower(t))
  {
    if t != "" {
      LowerAt(t, 0);
      LowerAt(t, |t| - 1);
      LowerKeepsKind(t[0]);
      LowerKeepsKind(t[|t| - 1]);
    }
  }

  /** A part between separators gives a clean tag, or nothing. */
  lemma CanonIsClean(part: string)
    requires NoSep(part)
    ensures Canon(part) != "" ==> CleanTag(Canon(part))
  {
    var t := Trim(part);
    TrimIsTrimmed(part);
    forall c | c in t ensures !TagSep(c) {
      TrimKeeps(part, c);
    }
    LowerKeepsNoSep(t);
    LowerKeepsTrimmed(t);
    LowerTwice(t);
    WildcardIsClean();
  }

  lemma {:induction false} CanonsAreClean(parts: seq<string>)
    requires forall i :: 0 <= i < |parts| ==> NoSep(parts[i])
    ensures AllClean(Canons(parts))
  {
    if parts != [] {
      CanonIsClean(parts[0]);
      CanonsAreClean(parts[1..]);
    }
  }

  /** Characters of a part are characters of the split text. */
  lemma {:induction false} SplitKeeps(s: string, sep: char, i: nat, c: char)
    requires i < |Split(s, sep)| && c in Split(s, sep)[i]
    ensures c in s
  {
    if s != "" {
      var rest := Split(s[1..], sep);
      if s[0] == sep {
        SplitKeeps(s[1..], sep, i - 1, c);
      } else if i > 0 {
        assert Split(s, sep)[i] == rest[i];
        SplitKeeps(s[1..], sep, i, c);
      } else if c != s[0] {
        assert c in rest[0];
        SplitKeeps(s[1..], sep, 0, c);
      }
    }
  }

  lemma PartsHaveNoSep(s: string)
    ensures forall i :: 0 <= i < |Split(Commas(s), ',')| ==> NoSep(Split(Commas(s), ',')[i])
  {
    var parts := Split(Commas(s), ',');
    SplitParts(Commas(s), ',');
    CommasHasNoOther(s);
    forall i, c | 0 <= i < |parts| && c in parts[i] ensures !TagSep(c) {
      SplitKeeps(Commas(s), ',', i, c);
      assert Free(parts[i], ',');
    }
  }

  lemma {:induction false} TagsAreClean(input: seq<string>)
    ensures AllClean(Tags(input))
  {
    if input != [] {
      PartsHaveNoSep(input[0]);
      CanonsAreClean(Split(Commas(input[0]), ','));
      TagsAreClean(input[1..]);
    }
  }

  /** Normalising yields the single wildcard or a strictly sorted wildcard-free list of clean tags. */
  lemma NormalizedIsCanonical(input: seq<string>)
    ensures Canonical(Normalized(input))
  {
    var tags := Tags(input);
    if tags != [] && All !in tags {
      TagsAreClean(input);
      SortedSetAscends(tags);
      var out := SortedSet(tags);
      assert tags[0] in out;
      forall i | 0 <= i < |out| ensures CleanTag(out[i]) {
        assert out[i] in out && out[i] in tags;
      }
    }
  }

  /******* Round trips *******/

  predicate OnlyCommas(s: string) {
    forall i :: 0 <= i < |s| ==> !TagSep(s[i]) || s[i] == ','
  }

  lemma {:induction false} CommasFixed(s: string)
    requires OnlyCommas(s)
    ensures Commas(s) == s
  {
    if s != "" {
      CommasFixed(s[1..]);
    }
  }

  lemma CleanIsCanon(t: string)
    requires CleanTag(t)
    ensures Canon(t) == t
  {
    TrimmedIsFixed(t);
  }

  lemma {:induction false} CleanAreCanons(tags: seq<string>)
    requires AllClean(tags)
    ensures Canons(tags) == tags
  {
    if tags != [] {
      CleanIsCanon(tags[0]);
      CleanAreCanons(tags[1..]);
    }
  }

  lemma {:induction false} JoinHasOnlyCommas(tags: seq<string>)
    requires AllClean(tags)
    ensures OnlyCommas(Join(tags, ','))
  {
    if |tags| > 1 {
      JoinHasOnlyCommas(tags[1..]);
    }
  }

  /** Reading the joined text of clean tags gives the tags. */
  lemma TagsOfJoin(tags: seq<string>)
    requires AllClean(tags) && tags != []
    ensures Tags([Join(tags, ',')]) == tags
  {
    var s := Join(tags, ',');
    JoinHasOnlyCommas(tags);
    CommasFixed(s);
    assert forall i :: 0 <= i < |tags| ==> Free(tags[i], ',');
    SplitOfJoin(tags, ',');
    CleanAreCanons(tags);
    assert Tags([s]) == Canons(Split(Commas(s), ',')) + Tags([]);
  }

  lemma {:induction false} TagsOfClean(tags: seq<string>)
    requires AllClean(tags)
    ensures Tags(tags) == tags
  {
    if tags != [] {
      TagsOfJoin([tags[0]]);
      assert Tags([tags[0]]) == Canons(Split(Commas(tags[0]), ',')) + Tags([]);
      TagsOfClean(tags[1..]);
      assert tags == [tags[0]] + tags[1..];
    }
  }

  lemma WildcardIsClean()
    ensures CleanTag(All)
  {
    assert Lower("*") == "*";
  }

  /** A canonical list, read as tags, is normal already. */
  lemma CanonicalIsFixed(tags: seq<string>, input: seq<string>)
    requires Canonical(tags) && Tags(input) == tags
    ensures Normalized(input) == tags
  {
    if tags != [All] {
      SortedSetAscends(tags);
      AscendingUnique(SortedSet(tags), tags);
    }
  }

  lemma NormalizeTwice(input: seq<string>)
    ensures Normalized(Normalized(input)) == Normalized(input)
  {
    NormalizedIsCanonical(input);
    WildcardIsClean();
    TagsOfClean(Normalized(input));
    CanonicalIsFixed(Normalized(input), Normalized(input));
  }

  /** The stored text of a tag list reads back as its canonical form. */
  lemma SplitOfJoinTags(input: seq<string>)
    ensures SplitTags(JoinTags(input)) == Normalized(input)
  {
    NormalizedIsCanonical(input);
    WildcardIsClean();
    TagsOfJoin(Normalized(input));
    CanonicalIsFixed(Normalized(input), [JoinTags(input)]);
  }

  /******* Matching *******/

  /** A file without platform restriction, or with one of the target's tags. */
  ghost predicate Fits(fileTags: seq<string>, target: seq<string>) {
    var tags := Tags(fileTags);
    tags == [] || All in tags || exists t :: t in tags && t in target
  }

  /** Matches; the result depends on the file's tags only through their canonical form. */
  method Matches(fileTags: seq<string>, target: seq<string>) returns (ok: bool)
    ensures ok <==> Fits(fileTags, target)
    ensures ok <==> Fits(Normalized(fileTags), target)
  {
    FitsCanonical(fileTags, target);
    var tags := Normalize(fileTags);
    for i := 0 to |tags|
      invariant forall k :: 0 <= k < i ==> tags[k] != All && tags[k] !in target
    {
      var hit := tags[i] == All;
      if !hit {
        hit := Contains(target, tags[i]);
      }
      if hit {
        CanonicalFits(fileTags, target, tags[i]);
        return true;
      }
    }
    NothingFits(fileTags, target);
    ok := false;
  }

  method Contains(target: seq<string>, tag: string) returns (found: bool)
    ensures found == (tag in target)
  {
    for j := 0 to |target|
      invariant tag !in target[..j]
    {
      if tag == target[j] {
        return true;
      }
    }
    found := false;
  }

  lemma CanonicalFits(fileTags: seq<string>, target: seq<string>, t: string)
    requires t in Normalized(fileTags) && (t == All || t in target)
    ensures Fits(fileTags, target)
  {
    NormalizedIsCanonical(fileTags);
    SortedSetAscends(Tags(fileTags));
  }

  lemma NothingFits(fileTags: seq<string>, target: seq<string>)
    requires forall t :: t in Normalized(fileTags) ==> t != All && t !in target
    ensures !Fits(fileTags, target)
  {
    assert All !in Normalized(fileTags);
    SortedSetAscends(Tags(fileTags));
  }

  lemma FitsCanonical(fileTags: seq<string>, target: seq<string>)
    ensures Fits(Normalized(fileTags), target) <==> Fits(fileTags, target)
  {
    NormalizedIsCanonical(fileTags);
    WildcardIsClean();
    TagsOfClean(Normalized(fileTags));
    SortedSetAscends(Tags(fileTags));
  }

  /** Files with the same canonical tags match the same targets. */
  lemma MatchingIsCanonical(f: seq<string>, g: seq<string>, target: seq<string>)
    requires Normalized(f) == Normalized(g)
    ensures Fits(f, target) <==> Fits(g, target)
  {
    FitsCanonical(f, target);
    FitsCanonical(g, target);
  }

  /******* Targets *******/

  /** The raw tags that Target normalises. */
  function TargetInput(os: string, arch: string, extra: seq<string>): seq<string> {
    var o, a := Lower(Trim(os)), Lower(Trim(arch));
    extra + (if o != "" then [o] else []) + (if a != "" then [a] else [])
      + (if o != "" && a != "" then [o + "-" + a] else [])
  }

  /** Unless it is the wildcard, a target has the extra tags, its system, its architecture and "system-architecture". */
  method Target(os: string, arch: string, extra: seq<string>) returns (tags: seq<string>)
    ensures var o, a := Lower(Trim(os)), Lower(Trim(arch));
      tags != [All] ==> forall t :: t in tags <==>
        t in Tags(extra) || t in Tags([o]) || t in Tags([a]) || (o != "" && a != "" && t in Tags([o + "-" + a]))
    ensures tags == Normalized(TargetInput(os, arch, extra))
    ensures Canonical(tags)
  {
    var all := extra;
    var o, a := Lower(Trim(os)), Lower(Trim(arch));
    if o != "" {
      all := all + [o];
    }
    if a != "" {
      all := all + [a];
    }
    if o != "" && a != "" {
      all := all + [o + "-" + a];
    }
    assert all == TargetInput(os, arch, extra);
    tags := Normalize(all);
    SortedSetAscends(Tags(all));
    if tags != [All] {
      forall t ensures t in tags <==>
          t in Tags(extra) || t in Tags([o]) || t in Tags([a]) || (o != "" && a != "" && t in Tags([o + "-" + a]))
      {
        TagsOfTarget(os, arch, extra, t);
      }
    }
  }

  lemma {:induction false} TagsOfMember(input: seq<string>, raw: string, t: string)
    requires raw in input && t in Tags([raw])
    ensures t in Tags(input)
  {
    assert Tags([raw]) == Canons(Split(Commas(raw), ',')) + Tags([]);
    if input[0] != raw {
      assert input == [input[0]] + input[1..];
      TagsOfMember(input[1..], raw, t);
    }
  }

  /** Unless it collapses to the wildcard, a target takes every file tagged with its system, its architecture, their
      pair or an extra tag, in whatever spelling. */
  lemma TargetTakesItsPlatform(os: string, arch: string, extra: seq<string>, raw: string)
    requires var o, a := Lower(Trim(os)), Lower(Trim(arch));
      raw in extra || (raw == o && o != "") || (raw == a && a != "")
      || (o != "" && a != "" && raw == o + "-" + a)
    requires Normalized(TargetInput(os, arch, extra)) != [All]
    ensures Fits([raw], Normalized(TargetInput(os, arch, extra)))
  {
    var input := TargetInput(os, arch, extra);
    SortedSetAscends(Tags(input));
    if Tags([raw]) != [] {
      TagsOfMember(input, raw, Tags([raw])[0]);
    }
  }

  /** Only those: a restricted file that fits has a tag among the tags of the target's own names. */
  lemma TargetTakesNothingElse(os: string, arch: string, extra: seq<string>, fileTags: seq<string>)
    requires Normalized(TargetInput(os, arch, extra)) != [All] && Normalized(fileTags) != [All]
    requires Fits(fileTags, Normalized(TargetInput(os, arch, extra)))
    ensures var o, a := Lower(Trim(os)), Lower(Trim(arch));
      exists t :: t in Tags(fileTags)
        && (t in Tags(extra) || t in Tags([o]) || t in Tags([a]) || (o != "" && a != "" && t in Tags([o + "-" + a])))
  {
    SortedSetAscends(Tags(TargetInput(os, arch, extra)));
    var t :| t in Tags(fileTags) && t in Tags(TargetInput(os, arch, extra));
    TagsOfTarget(os, arch, extra, t);
  }

  lemma TagsOfTarget(os: string, arch: string, extra: seq<string>, t: string)
    ensures var o, a := Lower(Trim(os)), Lower(Trim(arch));
      t in Tags(TargetInput(os, arch, extra)) <==>
        t in Tags(extra) || t in Tags([o]) || t in Tags([a]) || (o != "" && a != "" && t in Tags([o + "-" + a]))
  {
    var o, a := Lower(Trim(os)), Lower(Trim(arch));
    var s := if o != "" then [o] else [];
    var c := if a != "" then [a] else [];
    var p := if o != "" && a != "" then [o + "-" + a] else [];
    TagsAppend(extra, s);
    TagsAppend(extra + s, c);
    TagsAppend(extra + s + c, p);
    NoTags();
  }

  lemma NoTags()
    ensures Tags([""]) == []
  {
    assert Canons([""]) == [];
  }

  lemma {:induction false} TagsAppend(a: seq<string>, b: seq<string>)
    ensures Tags(a + b) == Tags(a) + Tags(b)
  {
    if a == [] {
      assert a + b == b;
    } else {
      assert (a + b)[0] == a[0] && (a + b)[1..] == a[1..] + b;
      var first := Canons(Split(Commas(a[0]), ','));
      assert Tags(a + b) == first + Tags(a[1..] + b) && Tags(a) == first + Tags(a[1..]);
      TagsAppend(a[1..], b);
    }
  }

  /** A target that collapses to the wildcard takes only files without platform restriction. */
  lemma WildcardTarget(fileTags: seq<string>)
    ensures Fits(fileTags, [All]) <==> Normalized(fileTags) == [All]
  {
    NormalizedIsCanonical(fileTags);
    SortedSetAscends(Tags(fileTags));
    if Tags(fileTags) != [] && All !in Tags(fileTags) {
      assert All !in SortedSet(Tags(fileTags));
    }
  }
}
