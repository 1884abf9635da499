/** The few operations of Go's strings package that the system relies on. */
module Text {

  /** White space as trimmed by strings.TrimSpace. */
  predicate IsSpace(c: char) {
    c == '\t' || c == '\n' || c == '\U{000B}' || c == '\U{000C}' || c == '\r' || c == ' ' || c == '\U{0085}'
      || c == '\U{00A0}'
    || c == '\U{1680}' || ('\U{2000}' <= c <= '\U{200A}') || c == '\U{2028}' || c == '\U{2029}' || c == '\U{202F}'
    || c == '\U{205F}' || c == '\U{3000}'
  }

  function TrimLeft(s: string): string {
    if s != "" && IsSpace(s[0]) then TrimLeft(s[1..]) else s
  }

  function TrimRight(s: string): string {
    if s != "" && IsSpace(s[|s| - 1]) then TrimRight(s[..|s| - 1]) else s
  }

  /** strings.TrimSpace */
  function Trim(s: string): string {
    TrimRight(TrimLeft(s))
  }

  predicate Trimmed(s: string) {
    s != "" ==> !IsSpace(s[0]) && !IsSpace(s[|s| - 1])
  }

  lemma {:induction false} TrimLeftIsSuffix(s: string)
    ensures var r := TrimLeft(s); |r| <= |s| && r == s[|s| - |r|..] && (r != "" ==> !IsSpace(r[0]))
  {
    if s != "" && IsSpace(s[0]) {
      TrimLeftIsSuffix(s[1..]);
    }
  }

  lemma {:induction false} TrimRightIsPrefix(s: string)
    ensures var r := TrimRight(s); |r| <= |s| && r == s[..|r|] && (r != "" ==> !IsSpace(r[|r| - 1]))
    ensures s != "" && !IsSpace(s[0]) ==> TrimRight(s) != ""
  {
    if s != "" && IsSpace(s[|s| - 1]) {
      TrimRightIsPrefix(s[..|s| - 1]);
    }
  }

  lemma TrimIsTrimmed(s: string)
    ensures Trimmed(Trim(s))
  {
    TrimLeftIsSuffix(s);
    TrimRightIsPrefix(TrimLeft(s));
    if Trim(s) != "" {
      assert Trim(s)[0] == TrimLeft(s)[0];
    }
  }

  lemma TrimmedIsFixed(s: string)
    requires Trimmed(s)
    ensures Trim(s) == s
  {
  }

  predicate Blank(s: string) {
    forall i :: 0 <= i < |s| ==> IsSpace(s[i])
  }

  /** Exactly the white space around a text is trimmed. */
  lemma {:induction false} TrimStrips(a: string, s: string, b: string)
    requires Blank(a) && Trimmed(s) && Blank(b)
    ensures Trim(a + s + b) == s
  {
    if a != "" {
      assert (a + s + b)[0] == a[0] && (a + s + b)[1..] == a[1..] + s + b;
      TrimStrips(a[1..], s, b);
    } else if s == "" {
      assert a + s + b == b;
      TrimLeftBlank(b);
    } else {
      assert a + s + b == s + b;
      TrimRightStrips(s, b);
    }
  }

  lemma {:induction false} TrimLeftBlank(b: string)
    requires Blank(b)
    ensures TrimLeft(b) == ""
  {
    if b != "" {
      TrimLeftBlank(b[1..]);
    }
  }

  lemma {:induction false} TrimRightStrips(s: string, b: string)
    requires Blank(b) && (s != "" ==> !IsSpace(s[|s| - 1]))
    ensures TrimRight(s + b) == s
  {
    if b != "" {
      assert (s + b)[..|s + b| - 1] == s + b[..|b| - 1];
      TrimRightStrips(s, b[..|b| - 1]);
    } else {
      assert s + b == s;
    }
  }

  /** Every character of the trimmed text is a character of the text. */
  lemma TrimKeeps(s: string, c: char)
    requires c in Trim(s)
    ensures c in s
  {
    TrimLeftIsSuffix(s);
    TrimRightIsPrefix(TrimLeft(s));
    assert c in TrimLeft(s);
  }

  /** strings.Split for a one-character separator. */
  function Split(s: string, sep: char): (parts: seq<string>)
    ensures |parts| >= 1
  {
    if s == "" then [""]
    else
      var rest := Split(s[1..], sep);
      if s[0] == sep then [""] + rest else [[s[0]] + rest[0]] + rest[1..]
  }

  /** strings.Join for a one-character separator. */
  function Join(parts: seq<string>, sep: char): string {
    if parts == [] then ""
    else if |parts| == 1 then parts[0]
    else parts[0] + [sep] + Join(parts[1..], sep)
  }

  predicate Free(s: string, sep: char) {
    sep !in s
  }

  lemma {:induction false} SplitParts(s: string, sep: char)
    ensures forall i :: 0 <= i < |Split(s, sep)| ==> Free(Split(s, sep)[i], sep)
  {
    if s != "" {
      SplitParts(s[1..], sep);
    }
  }

  lemma {:induction false} SplitWhole(s: string, sep: char)
    requires Free(s, sep)
    ensures Split(s, sep) == [s]
  {
    if s != "" {
      SplitWhole(s[1..], sep);
      assert s == [s[0]] + s[1..];
    }
  }

  lemma {:induction false} SplitFirst(a: string, b: string, sep: char)
    requires Free(a, sep)
    ensures Split(a + [sep] + b, sep) == [a] + Split(b, sep)
  {
    var s := a + [sep] + b;
    if a == "" {
      assert s[1..] == b;
    } else {
      SplitFirst(a[1..], b, sep);
      assert s[1..] == a[1..] + [sep] + b;
      assert a == [a[0]] + a[1..];
      var rest := Split(s[1..], sep);
      assert rest[0] == a[1..] && rest[1..] == Split(b, sep);
    }
  }

  /** Splitting what was joined gives the parts back. */
  lemma {:induction false} SplitOfJoin(parts: seq<string>, sep: char)
    requires |parts| >= 1 && forall i :: 0 <= i < |parts| ==> Free(parts[i], sep)
    ensures Split(Join(parts, sep), sep) == parts
  {
    if |parts| == 1 {
      SplitWhole(parts[0], sep);
    } else {
      SplitOfJoin(parts[1..], sep);
      SplitFirst(parts[0], Join(parts[1..], sep), sep);
    }
  }

  /** Joining what was split gives the text back. */
  lemma {:induction false} JoinOfSplit(s: string, sep: char)
    ensures Join(Split(s, sep), sep) == s
  {
    if s != "" {
      var rest := Split(s[1..], sep);
      JoinOfSplit(s[1..], sep);
      if s[0] == sep {
        assert Split(s, sep)[1..] == rest;
      } else if |rest| > 1 {
        assert Split(s, sep)[1..] == rest[1..];
      }
    }
  }

  lemma {:induction false} SplitConcat(a: string, b: string, sep: char)
    ensures Split(a + [sep] + b, sep) == Split(a, sep) + Split(b, sep)
    decreases |a|
  {
    var s := a + [sep] + b;
    if a == "" {
      assert s[1..] == b;
    } else {
      assert s[0] == a[0] && s[1..] == a[1..] + [sep] + b;
      SplitConcat(a[1..], b, sep);
      ConsSplit(a[0], s, Split(a[1..], sep), Split(b, sep), sep);
    }
  }

  lemma ConsSplit(c: char, s: string, first: seq<string>, rest: seq<string>, sep: char)
    requires s != "" && s[0] == c && first != [] && Split(s[1..], sep) == first + rest
    ensures Split(s, sep) == (if c == sep then [""] + first else [[c] + first[0]] + first[1..]) + rest
  {
    assert (first + rest)[0] == first[0] && (first + rest)[1..] == first[1..] + rest;
  }

  /** Text without the separator in front extends the first part. */
  lemma {:induction false} SplitExtends(a: string, b: string, sep: char)
    requires Free(a, sep)
    ensures Split(a + b, sep) == [a + Split(b, sep)[0]] + Split(b, sep)[1..]
  {
    if a == "" {
      assert a + b == b && "" + Split(b, sep)[0] == Split(b, sep)[0];
    } else {
      SplitExtends(a[1..], b, sep);
      assert (a + b)[1..] == a[1..] + b && (a + b)[0] == a[0];
      assert [a[0]] + (a[1..] + Split(b, sep)[0]) == a + Split(b, sep)[0];
    }
  }

  /** strings.ToLower on ASCII letters; other characters are kept. */
  function LowerChar(c: char): char {
    if 'A' <= c <= 'Z' then (c as int + 32) as char else c
  }

  function Lower(s: string): (r: string)
    ensures |r| == |s|
  {
    if s == "" then "" else [LowerChar(s[0])] + Lower(s[1..])
  }

  /** The same text but for the case of ASCII letters. */
  predicate SameLetters(a: string, b: string) {
    |a| == |b| && forall i :: 0 <= i < |a| ==> SameLetter(a[i], b[i])
  }

  predicate SameLetter(c: char, d: char) {
    || c == d
    || ('A' <= c <= 'Z' && d as int - 'a' as int == c as int - 'A' as int)
    || ('A' <= d <= 'Z' && c as int - 'a' as int == d as int - 'A' as int)
  }

  /** Lower-cased texts are equal exactly if the texts differ in the case of letters only. */
  lemma {:induction false} LowerFoldsCase(a: string, b: string)
    ensures Lower(a) == Lower(b) <==> SameLetters(a, b)
  {
    if |a| == |b| && a != "" {
      LowerFoldsCase(a[1..], b[1..]);
      assert Lower(a)[1..] == Lower(a[1..]) && Lower(b)[1..] == Lower(b[1..]);
      assert Lower(a)[0] == LowerChar(a[0]) && Lower(b)[0] == LowerChar(b[0]);
      FirstAndRest(a, b);
    }
  }

  lemma FirstAndRest(a: string, b: string)
    requires |a| == |b| > 0
    ensures SameLetters(a, b) <==> SameLetter(a[0], b[0]) && SameLetters(a[1..], b[1..])
  {
    if SameLetter(a[0], b[0]) && SameLetters(a[1..], b[1..]) {
      forall i | 0 <= i < |a| ensures SameLetter(a[i], b[i]) {
        if i > 0 {
          assert SameLetter(a[1..][i - 1], b[1..][i - 1]);
        }
      }
    }
    if SameLetters(a, b) {
      forall i | 0 <= i < |a| - 1 ensures SameLetter(a[1..][i], b[1..][i]) {
        assert SameLetter(a[i + 1], b[i + 1]);
      }
    }
  }

  /** A number in decimal digits. */
  function Decimal(n: nat): (s: string)
    ensures s != "" && forall i :: 0 <= i < |s| ==> '0' <= s[i] <= '9'
  {
    var digit := ['0' + (n % 10) as char];
    if n < 10 then digit else Decimal(n / 10) + digit
  }

  lemma {:induction false} DecimalIsInjective(m: nat, n: nat)
    requires Decimal(m) == Decimal(n)
    ensures m == n
  {
    var a, b := Decimal(m), Decimal(n);
    assert a[|a| - 1] == '0' + (m % 10) as char && b[|b| - 1] == '0' + (n % 10) as char;
    if m >= 10 && n >= 10 {
      assert a[..|a| - 1] == Decimal(m / 10) && b[..|b| - 1] == Decimal(n / 10);
      DecimalIsInjective(m / 10, n / 10);
    }
  }
}
