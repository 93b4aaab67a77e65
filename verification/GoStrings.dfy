/** The functions of Go's `strings`, `strconv` and `path` packages the program relies on, as specifications. */
module GoStrings {
  import opened Collections

  // ----- Split and Join

  /** strings.Split(s, sep) for a one-character separator. */
  function Split(s: string, sep: char): (r: seq<string>)
    ensures |r| >= 1
  {
    if s == "" then [""]
    else
      var rest := Split(s[1..], sep);
      if s[0] == sep then [""] + rest else [[s[0]] + rest[0]] + rest[1..]
  }

  /** strings.Join(parts, sep) */
  function Join(parts: seq<string>, sep: string): string {
    if |parts| == 0 then ""
    else if |parts| == 1 then parts[0]
    else parts[0] + sep + Join(parts[1..], sep)
  }

  lemma {:induction false} SplitPlain(s: string, sep: char)
    requires sep !in s
    ensures Split(s, sep) == [s]
  {
    if s != "" {
      SplitPlain(s[1..], sep);
      assert [s[0]] + s[1..] == s;
    }
  }

  lemma {:induction false} SplitFirst(a: string, sep: char, b: string)
    requires sep !in a
    ensures Split(a + [sep] + b, sep) == [a] + Split(b, sep)
  {
    var s := a + [sep] + b;
    if a == "" {
      assert s[1..] == b;
    } else {
      SplitFirst(a[1..], sep, b);
      assert s[1..] == a[1..] + [sep] + b;
      assert [a[0]] + a[1..] == a;
    }
  }

  /** Splitting undoes joining, for parts free of the separator. */
  lemma {:induction false} SplitJoin(parts: seq<string>, sep: char)
    requires parts != [] && forall p :: p in parts ==> sep !in p
    ensures Split(Join(parts, [sep]), sep) == parts
  {
    if |parts| == 1 {
      SplitPlain(parts[0], sep);
    } else {
      SplitJoin(parts[1..], sep);
      SplitFirst(parts[0], sep, Join(parts[1..], [sep]));
    }
  }

  /** The last part of a text that does not end in the separator. */
  lemma {:induction false} LastPart(s: string, sep: char)
    requires s != "" && s[|s|-1] != sep
    ensures var parts := Split(s, sep);
      parts[|parts|-1] != "" && forall c :: c in parts[|parts|-1] ==> c in s
  {
    if |s| > 1 {
      LastPart(s[1..], sep);
      assert s == [s[0]] + s[1..];
      var rest := Split(s[1..], sep);
      assert s[0] != sep ==> Split(s, sep) == [[s[0]] + rest[0]] + rest[1..];
    } else {
      SplitPlain(s, sep);
    }
  }

  /** What follows the last separator is the last part. */
  lemma {:induction false} LastAfter(a: string, sep: char, b: string)
    requires sep !in b
    ensures var parts := Split(a + [sep] + b, sep); parts[|parts|-1] == b && |parts| >= 2
  {
    var s := a + [sep] + b;
    if a == "" {
      assert s[1..] == b;
      SplitPlain(b, sep);
    } else {
      LastAfter(a[1..], sep, b);
      assert s[1..] == a[1..] + [sep] + b;
    }
  }

  lemma {:induction false} JoinConcat(a: seq<string>, b: seq<string>, sep: string)
    requires a != [] && b != []
    ensures Join(a + b, sep) == Join(a, sep) + sep + Join(b, sep)
  {
    assert (a + b)[1..] == a[1..] + b;
    if |a| > 1 {
      JoinConcat(a[1..], b, sep);
      assert a[0] + sep + (Join(a[1..], sep) + sep + Join(b, sep))
          == (a[0] + sep + Join(a[1..], sep)) + sep + Join(b, sep);
    }
  }

  lemma {:induction false} JoinHasNo(parts: seq<string>, sep: string, c: char)
    requires forall p :: p in parts ==> c !in p
    requires c !in sep
    ensures c !in Join(parts, sep)
  {
    if |parts| >= 2 {
      JoinHasNo(parts[1..], sep, c);
    }
  }

  // ----- Fields and TrimSpace

  /** unicode.IsSpace */
  predicate IsSpace(c: char) {
    || '\t' <= c <= '\r' || c == ' ' || c == '\U{0085}' || c == '\U{00A0}' || c == '\U{1680}'
    || '\U{2000}' <= c <= '\U{200A}' || c == '\U{2028}' || c == '\U{2029}' || c == '\U{202F}'
    || c == '\U{205F}' || c == '\U{3000}'
  }

  predicate AllSpace(s: string) {
    forall k :: 0 <= k < |s| ==> IsSpace(s[k])
  }

  /** A non-empty run of non-space characters. */
  predicate IsWord(s: string) {
    s != "" && forall k :: 0 <= k < |s| ==> !IsSpace(s[k])
  }

  function WordLength(s: string): (n: nat)
    ensures n <= |s|
    ensures forall k :: 0 <= k < n ==> !IsSpace(s[k])
    ensures n < |s| ==> IsSpace(s[n])
  {
    if s == "" || IsSpace(s[0]) then 0 else 1 + WordLength(s[1..])
  }

  /** strings.Fields */
  function Fields(s: string): seq<string>
    decreases |s|
  {
    if s == "" then []
    else if IsSpace(s[0]) then Fields(s[1..])
    else
      var n := WordLength(s);
      [s[..n]] + Fields(s[n..])
  }

  /** Words laid out with spacing: gaps[0] words[0] gaps[1] words[1] ... gaps[n]. */
  function Layout(words: seq<string>, gaps: seq<string>): string
    requires |gaps| == |words| + 1
  {
    if words == [] then gaps[0] else gaps[0] + words[0] + Layout(words[1..], gaps[1..])
  }

  /** Gaps are spacing, and there is some between any two words. */
  predicate Spaced(gaps: seq<string>) {
    && (forall k :: 0 <= k < |gaps| ==> AllSpace(gaps[k]))
    && (forall k :: 0 < k < |gaps| - 1 ==> gaps[k] != "")
  }

  lemma {:induction false} FieldsSkip(gap: string, s: string)
    requires AllSpace(gap)
    ensures Fields(gap + s) == Fields(s)
  {
    if gap == "" {
      assert gap + s == s;
    } else {
      FieldsSkip(gap[1..], s);
      assert (gap + s)[1..] == gap[1..] + s;
    }
  }

  lemma {:induction false} FieldsWord(word: string, s: string)
    requires IsWord(word) && (s == "" || IsSpace(s[0]))
    ensures Fields(word + s) == [word] + Fields(s)
  {
    var n := WordLength(word + s);
    assert n <= |word| by {
      assert s != "" ==> (word + s)[|word|] == s[0];
    }
    assert forall k :: 0 <= k < |word| ==> (word + s)[k] == word[k];
    assert (word + s)[..n] == word && (word + s)[n..] == s;
  }

  /** strings.Fields recovers the words whatever the spacing. */
  lemma {:induction false} FieldsOfLayout(words: seq<string>, gaps: seq<string>)
    requires |gaps| == |words| + 1 && Spaced(gaps)
    requires forall w :: w in words ==> IsWord(w)
    ensures Fields(Layout(words, gaps)) == words
  {
    if words == [] {
      FieldsSkip(gaps[0], "");
      assert gaps[0] + "" == gaps[0];
    } else {
      var rest := Layout(words[1..], gaps[1..]);
      FieldsOfLayout(words[1..], gaps[1..]);
      assert rest == "" || IsSpace(rest[0]) by {
        assert gaps[1] != "" || |words| == 1;
      }
      FieldsWord(words[0], rest);
      assert gaps[0] + words[0] + rest == gaps[0] + (words[0] + rest);
      FieldsSkip(gaps[0], words[0] + rest);
    }
  }

  predicate StartsWithSpace(s: string) {
    s == "" || IsSpace(s[0])
  }

  lemma AfterWord(word: string, s: string)
    requires IsWord(word) && StartsWithSpace(s)
    ensures Fields(word + s) == [word] + Fields(s)
  {
    FieldsWord(word, s);
  }

  lemma BothStartWithSpace(a: string, b: string)
    requires StartsWithSpace(a) && StartsWithSpace(b)
    ensures StartsWithSpace(a + b)
  {
    if a == "" {
      assert a + b == b;
    }
  }

  /** A text and one that begins with a space have their fields side by side. */
  lemma {:induction false} FieldsAppend(a: string, b: string)
    requires StartsWithSpace(b)
    ensures Fields(a + b) == Fields(a) + Fields(b)
    decreases |a|
  {
    if a == "" {
      assert a + b == b;
    } else if IsSpace(a[0]) {
      FieldsAppend(a[1..], b);
      assert (a + b)[1..] == a[1..] + b;
    } else {
      var n := WordLength(a);
      assert a == a[..n] + a[n..];
      FieldsAppend(a[n..], b);
      AppendToWord(a[..n], a[n..], b);
    }
  }

  lemma AppendToWord(word: string, rest: string, b: string)
    requires IsWord(word) && StartsWithSpace(rest) && StartsWithSpace(b)
    requires Fields(rest + b) == Fields(rest) + Fields(b)
    ensures Fields((word + rest) + b) == Fields(word + rest) + Fields(b)
  {
    BothStartWithSpace(rest, b);
    AfterWord(word, rest + b);
    AfterWord(word, rest);
    Regroup(word, rest, b);
    Regroup([word], Fields(rest), Fields(b));
  }

  function AllFields(columns: seq<string>): seq<string> {
    if columns == [] then [] else Fields(columns[0]) + AllFields(columns[1..])
  }

  /** The fields of spaced columns are those of each column in turn. */
  lemma {:induction false} FieldsOfColumns(columns: seq<string>, gaps: seq<string>)
    requires |gaps| == |columns| + 1 && Spaced(gaps)
    ensures Fields(Layout(columns, gaps)) == AllFields(columns)
  {
    if columns == [] {
      FieldsSkip(gaps[0], "");
      assert gaps[0] + "" == gaps[0];
    } else {
      FieldsOfColumns(columns[1..], gaps[1..]);
      var rest := Layout(columns[1..], gaps[1..]);
      assert gaps[0] + columns[0] + rest == gaps[0] + (columns[0] + rest);
      FieldsSkip(gaps[0], columns[0] + rest);
      if |columns| == 1 {
        LastColumn(columns[0], rest);
      } else {
        assert gaps[1] != "" && rest[0] == gaps[1][0];
        FieldsAppend(columns[0], rest);
      }
    }
  }

  lemma LastColumn(column: string, gap: string)
    requires AllSpace(gap)
    ensures Fields(column + gap) == Fields(column) + Fields(gap)
  {
    FieldsAppend(column, gap);
  }

  lemma {:induction false} FieldsAreWords(s: string)
    ensures forall w :: w in Fields(s) ==> IsWord(w)
    decreases |s|
  {
    if s != "" {
      var n := WordLength(s);
      FieldsAreWords(if n == 0 then s[1..] else s[n..]);
    }
  }

  lemma {:induction false} NoFieldsExactly(s: string)
    ensures Fields(s) == [] <==> AllSpace(s)
  {
    if s != "" && IsSpace(s[0]) {
      NoFieldsExactly(s[1..]);
      assert s == [s[0]] + s[1..];
    }
  }

  predicate InnerSpaceAt(s: string, i: nat, j: nat, k: nat) {
    i < j < k < |s| && !IsSpace(s[i]) && IsSpace(s[j]) && !IsSpace(s[k])
  }

  /** A space with something on both sides. */
  predicate InnerSpace(s: string) {
    exists i: nat, j: nat, k: nat | i < j < k < |s| :: InnerSpaceAt(s, i, j, k)
  }

  /** A text has more than one field exactly if there is a space inside it. */
  lemma {:induction false} ManyFieldsExactly(s: string)
    ensures |Fields(s)| > 1 <==> InnerSpace(s)
    decreases |s|
  {
    if s == "" {
    } else if IsSpace(s[0]) {
      ManyFieldsExactly(s[1..]);
      InnerSpaceAfter(s);
    } else {
      var n := WordLength(s);
      NoFieldsExactly(s[n..]);
      if k: nat :| k < |s| - n && !IsSpace(s[n..][k]) {
        assert InnerSpaceAt(s, 0, n, n + k);
      } else {
        forall k | n <= k < |s|
          ensures IsSpace(s[k])
        {
          assert s[k] == s[n..][k-n];
        }
      }
    }
  }

  lemma InnerSpaceAfter(s: string)
    requires s != "" && IsSpace(s[0])
    ensures InnerSpace(s) <==> InnerSpace(s[1..])
  {
    var t := s[1..];
    if InnerSpace(s) {
      var i: nat, j: nat, k: nat :| i < j < k < |s| && InnerSpaceAt(s, i, j, k);
      assert InnerSpaceAt(t, i - 1, j - 1, k - 1);
    }
    if InnerSpace(t) {
      var i: nat, j: nat, k: nat :| i < j < k < |t| && InnerSpaceAt(t, i, j, k);
      assert InnerSpaceAt(s, i + 1, j + 1, k + 1);
    }
  }

  function TrimLeft(s: string): string {
    if s != "" && IsSpace(s[0]) then TrimLeft(s[1..]) else s
  }

  function TrimRight(s: string): string {
    if s != "" && IsSpace(s[|s|-1]) then TrimRight(s[..|s|-1]) else s
  }

  /** strings.TrimSpace */
  function TrimSpace(s: string): string {
    TrimRight(TrimLeft(s))
  }

  lemma {:induction false} FieldsTrimLeft(s: string)
    ensures Fields(TrimLeft(s)) == Fields(s)
  {
    if s != "" && IsSpace(s[0]) {
      FieldsTrimLeft(s[1..]);
    }
  }

  lemma {:induction false} FieldsDropLast(s: string)
    requires s != "" && IsSpace(s[|s|-1])
    ensures Fields(s[..|s|-1]) == Fields(s)
    decreases |s|
  {
    var last := |s| - 1;
    var n := WordLength(s);
    if n == 0 {
      if last > 0 {
        FieldsDropLast(s[1..]);
        assert s[1..][..last-1] == s[..last][1..];
      }
    } else {
      FieldsDropLast(s[n..]);
      FieldsAfterWord(s, n);
      DropAfterWord(s, n);
    }
  }

  lemma DropAfterWord(s: string, n: nat)
    requires 0 < n < |s| && IsWord(s[..n]) && IsSpace(s[n])
    ensures Fields(s[..|s|-1]) == [s[..n]] + Fields(s[n..][..|s|-1-n])
  {
    var t := s[..|s|-1];
    assert t[..n] == s[..n];
    assert t[n..] == s[n..][..|s|-1-n];
    FieldsAfterWord(t, n);
  }

  lemma FieldsAfterWord(s: string, n: nat)
    requires 0 < n <= |s| && IsWord(s[..n]) && (n < |s| ==> IsSpace(s[n]))
    ensures Fields(s) == [s[..n]] + Fields(s[n..])
  {
    FieldsWord(s[..n], s[n..]);
    assert s == s[..n] + s[n..];
  }

  lemma {:induction false} FieldsTrimRight(s: string)
    ensures Fields(TrimRight(s)) == Fields(s)
  {
    if s != "" && IsSpace(s[|s|-1]) {
      FieldsTrimRight(s[..|s|-1]);
      FieldsDropLast(s);
    }
  }

  /** Trimming first changes no field. */
  lemma FieldsTrim(s: string)
    ensures Fields(TrimSpace(s)) == Fields(s)
  {
    FieldsTrimLeft(s);
    FieldsTrimRight(TrimLeft(s));
  }

  lemma TrimWord(s: string)
    requires s == "" || IsWord(s)
    ensures TrimSpace(s) == s
  {
  }

  lemma FieldsWordSpace(word: string, s: string)
    requires IsWord(word)
    ensures Fields(word + " " + s) == [word] + Fields(s)
  {
    FieldsSkip(" ", s);
    FieldsWord(word, " " + s);
    assert word + " " + s == word + (" " + s);
  }

  /** Words joined by single spaces are their own fields. */
  lemma {:induction false} FieldsOfJoin(words: seq<string>)
    requires forall w :: w in words ==> IsWord(w)
    ensures Fields(Join(words, " ")) == words
  {
    if |words| == 1 {
      FieldsWord(words[0], "");
      assert words[0] + "" == words[0];
    } else if |words| > 1 {
      FieldsOfJoin(words[1..]);
      FieldsWordSpace(words[0], Join(words[1..], " "));
    }
  }

  // ----- Replace and prefixes

  predicate HasPrefix(s: string, p: string) {
    |p| <= |s| && s[..|p|] == p
  }

  /** strings.Replace(s, old, new, 1) for a non-empty `old`. */
  function ReplaceFirst(s: string, from: string, to: string): string {
    if s == "" then ""
    else if HasPrefix(s, from) then to + s[|from|..]
    else [s[0]] + ReplaceFirst(s[1..], from, to)
  }

  /** strings.Replace(s, "c", "", -1) */
  function RemoveChar(s: string, c: char): string {
    if s == "" then "" else (if s[0] == c then "" else [s[0]]) + RemoveChar(s[1..], c)
  }

  lemma {:induction false} RemoveCharLast(s: string, c: char)
    requires c !in s
    ensures RemoveChar(s + [c], c) == s
  {
    if s != "" {
      RemoveCharLast(s[1..], c);
      assert (s + [c])[1..] == s[1..] + [c];
    }
  }

  // ----- decimal numbers

  predicate IsDigit(c: char) {
    '0' <= c <= '9'
  }

  /** strconv.Itoa of a natural number. */
  function Decimal(n: nat): string {
    (if n < 10 then "" else Decimal(n / 10)) + [('0' as int + n % 10) as char]
  }

  lemma {:induction false} DecimalDigits(n: nat)
    ensures Decimal(n) != "" && forall k :: 0 <= k < |Decimal(n)| ==> IsDigit(Decimal(n)[k])
  {
    if n >= 10 {
      DecimalDigits(n / 10);
    }
  }
}
