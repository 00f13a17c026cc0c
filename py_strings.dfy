/** The Python string operations the scrapers rely on, on `string` = `seq<char>`. */
module PyStrings {

  predicate IsDigit(c: char) { '0' <= c <= '9' }

  predicate IsUpper(c: char) { 'A' <= c <= 'Z' }

  /** The characters Python 2's argument-less `str.strip()` removes. */
  predicate IsSpace(c: char) {
    c == ' ' || c == '\t' || c == '\n' || c == '\r' || c == 11 as char || c == 12 as char
  }

  predicate AllDigits(s: string) { forall i :: 0 <= i < |s| ==> IsDigit(s[i]) }

  predicate EndsWith(s: string, c: char) { |s| > 0 && s[|s| - 1] == c }

  /** `s` with every character of `cs` deleted (`str.translate` with deletions, or
      `re.sub("[...]", "", s)` for a class of single characters). */
  function DeleteChars(s: string, cs: set<char>): (r: string)
    ensures |r| <= |s|
  {
    if s == [] then [] else (if s[0] in cs then [] else [s[0]]) + DeleteChars(s[1..], cs)
  }

  /** Deletion keeps exactly the characters of `s` outside `cs`. */
  lemma {:induction false} DeleteCharsMembers(s: string, cs: set<char>)
    ensures forall c :: c in DeleteChars(s, cs) <==> c in s && c !in cs
    decreases |s|
  {
    if s != [] {
      DeleteCharsMembers(s[1..], cs);
      assert s == [s[0]] + s[1..];
    }
  }

  /** `s` with every character outside `cs` deleted (`re.sub("[^...]", "", s)`). */
  function KeepChars(s: string, cs: set<char>): (r: string)
    ensures |r| <= |s|
  {
    if s == [] then [] else (if s[0] in cs then [s[0]] else []) + KeepChars(s[1..], cs)
  }

  /** Keeping retains exactly the characters of `s` inside `cs`. */
  lemma {:induction false} KeepCharsMembers(s: string, cs: set<char>)
    ensures forall c :: c in KeepChars(s, cs) <==> c in s && c in cs
    decreases |s|
  {
    if s != [] {
      KeepCharsMembers(s[1..], cs);
      assert s == [s[0]] + s[1..];
    }
  }

  /** Deleting characters that do not occur changes nothing. */
  lemma {:induction false} DeleteCharsNone(s: string, cs: set<char>)
    requires forall i :: 0 <= i < |s| ==> s[i] !in cs
    ensures DeleteChars(s, cs) == s
    decreases |s|
  {
    if s != [] {
      DeleteCharsNone(s[1..], cs);
    }
  }

  /** Deleting characters from a concatenation deletes them from each part. */
  lemma {:induction false} DeleteCharsConcat(a: string, b: string, cs: set<char>)
    ensures DeleteChars(a + b, cs) == DeleteChars(a, cs) + DeleteChars(b, cs)
    decreases |a|
  {
    if a == [] {
      assert a + b == b;
    } else {
      var head := if a[0] in cs then [] else [a[0]];
      assert (a + b)[1..] == a[1..] + b;
      calc {
        DeleteChars(a + b, cs);
        head + DeleteChars(a[1..] + b, cs);
        { DeleteCharsConcat(a[1..], b, cs); }
        head + (DeleteChars(a[1..], cs) + DeleteChars(b, cs));
        (head + DeleteChars(a[1..], cs)) + DeleteChars(b, cs);
      }
    }
  }

  /** Keeping characters that all belong to the set changes nothing. */
  lemma {:induction false} KeepCharsAll(s: string, cs: set<char>)
    requires forall i :: 0 <= i < |s| ==> s[i] in cs
    ensures KeepChars(s, cs) == s
    decreases |s|
  {
    if s != [] {
      KeepCharsAll(s[1..], cs);
    }
  }

  /** Keeping the same characters twice keeps what the first pass kept. */
  lemma KeepCharsIdempotent(s: string, cs: set<char>)
    ensures KeepChars(KeepChars(s, cs), cs) == KeepChars(s, cs)
  {
    var t := KeepChars(s, cs);
    KeepCharsMembers(s, cs);
    forall i | 0 <= i < |t| ensures t[i] in cs {
      assert t[i] in t;
    }
    KeepCharsAll(t, cs);
  }

  /** Keeping only non-whitespace characters leaves nothing for `strip()` to remove. */
  lemma KeptIsStripped(s: string, cs: set<char>)
    requires forall c :: c in cs ==> !IsSpace(c)
    ensures Strip(KeepChars(s, cs)) == KeepChars(s, cs)
  {
    var t := KeepChars(s, cs);
    KeepCharsMembers(s, cs);
    forall i | 0 <= i < |t| ensures !IsSpace(t[i]) {
      assert t[i] in t;
    }
    NoSpaceIsStripped(t);
  }

  lemma NoSpaceIsStripped(t: string)
    requires forall i :: 0 <= i < |t| ==> !IsSpace(t[i])
    ensures Strip(t) == t
  {
  }

  /** `s.encode('ascii', errors='ignore')`: characters above 127 are dropped. */
  function DropNonAscii(s: string): (r: string)
    ensures |r| <= |s|
  {
    if s == [] then [] else (if s[0] < 128 as char then [s[0]] else []) + DropNonAscii(s[1..])
  }

  /** Only ASCII characters survive, and all of them do. */
  lemma {:induction false} DropNonAsciiMembers(s: string)
    ensures forall c :: c in DropNonAscii(s) <==> c in s && c < 128 as char
    decreases |s|
  {
    if s != [] {
      DropNonAsciiMembers(s[1..]);
      assert s == [s[0]] + s[1..];
    }
  }

  predicate IsAscii(s: string) { forall i :: 0 <= i < |s| ==> s[i] < 128 as char }

  /** Python's `s.replace(pat, rep)`: every non-overlapping occurrence of `pat`, scanning left
      to right, is replaced in one pass (the replacement text is not scanned again). */
  function ReplaceAll(s: string, pat: string, rep: string): string
    requires pat != []
    decreases |s|
  {
    if |s| < |pat| then s
    else if s[..|pat|] == pat then rep + ReplaceAll(s[|pat|..], pat, rep)
    else [s[0]] + ReplaceAll(s[1..], pat, rep)
  }

  /** Replacing a one-character pattern by nothing deletes every occurrence of that character. */
  lemma {:induction false} ReplaceCharDeletes(s: string, c: char)
    ensures ReplaceAll(s, [c], "") == DeleteChars(s, {c})
    decreases |s|
  {
    if s != [] {
      ReplaceCharDeletes(s[1..], c);
      if s[..1] == [c] {
        assert s[0] == c;
      }
    }
  }

  /** Deleting the occurrences of `pat` neither removes nor introduces a character that does not
      occur in `pat`. */
  lemma {:induction false} ReplaceKeepsOtherChars(s: string, pat: string, c: char)
    requires pat != [] && c !in pat
    ensures c in ReplaceAll(s, pat, "") <==> c in s
    decreases |s|
  {
    if |s| < |pat| {
    } else if s[..|pat|] == pat {
      ReplaceKeepsOtherChars(s[|pat|..], pat, c);
      assert s == s[..|pat|] + s[|pat|..];
    } else {
      ReplaceKeepsOtherChars(s[1..], pat, c);
      assert s == [s[0]] + s[1..];
    }
  }

  /** Text without some character of `pat` holds no occurrence of it and is left as it is. */
  lemma {:induction false} ReplaceAbsent(s: string, pat: string, rep: string, c: char)
    requires pat != [] && c in pat && c !in s
    ensures ReplaceAll(s, pat, rep) == s
    decreases |s|
  {
    if |s| >= |pat| {
      ReplaceAbsent(s[1..], pat, rep, c);
      assert s == [s[0]] + s[1..];
    }
  }

  /** Replacing every occurrence of a character by text without it leaves none behind. */
  lemma {:induction false} ReplaceCharGone(s: string, c: char, rep: string)
    requires c !in rep
    ensures c !in ReplaceAll(s, [c], rep)
    decreases |s|
  {
    if s != [] {
      ReplaceCharGone(s[1..], c, rep);
      if s[..1] != [c] {
        assert s[0] != c;
      }
    }
  }

  /** Python's `s.strip()`: leading and trailing whitespace removed. */
  function Strip(s: string): (r: string)
    ensures |r| <= |s|
    ensures r == [] || (!IsSpace(r[0]) && !IsSpace(r[|r| - 1]))
    ensures s == [] || (!IsSpace(s[0]) && !IsSpace(s[|s| - 1])) ==> r == s
  {
    var start := SkipSpaces(s, 0);
    s[start..BackSpaces(s, start, |s|)]
  }

  /** The index of the first non-whitespace character at or after `i`, or `|s|`. */
  function SkipSpaces(s: string, i: nat): (j: nat)
    requires i <= |s|
    ensures i <= j <= |s| && (j < |s| ==> !IsSpace(s[j]))
    ensures i < |s| && !IsSpace(s[i]) ==> j == i
    ensures forall k :: i <= k < j ==> IsSpace(s[k])
    decreases |s| - i
  {
    if i < |s| && IsSpace(s[i]) then SkipSpaces(s, i + 1) else i
  }

  /** One past the last non-whitespace character of `s[lo..j]`, or `lo` when there is none. */
  function BackSpaces(s: string, lo: nat, j: nat): (k: nat)
    requires lo <= j <= |s|
    ensures lo <= k <= j && (k > lo ==> !IsSpace(s[k - 1]))
    ensures j > lo && !IsSpace(s[j - 1]) ==> k == j
    ensures forall m :: k <= m < j ==> IsSpace(s[m])
    decreases j
  {
    if j > lo && IsSpace(s[j - 1]) then BackSpaces(s, lo, j - 1) else j
  }

  /** The characters Python 2's `unicode.strip()` removes: the whitespace of the Unicode 5.2
      database that Python 2.7 uses, which adds the separators 28 to 31, the next-line
      character and the Unicode spaces to the six that `str.strip()` removes. */
  predicate IsUnicodeSpace(c: char) {
    IsSpace(c) || 28 as char <= c <= 31 as char || c == 0x85 as char || c == 0xA0 as char ||
    c == 0x1680 as char || c == 0x180E as char || 0x2000 as char <= c <= 0x200A as char ||
    c == 0x2028 as char || c == 0x2029 as char || c == 0x202F as char || c == 0x205F as char ||
    c == 0x3000 as char
  }

  /** `u.strip()` on unicode text (`Tag.text` is unicode): the leading and trailing Unicode
      whitespace removed. */
  function UnicodeStrip(s: string): (r: string)
    ensures |r| <= |s|
  {
    var start := SkipUnicodeSpaces(s, 0);
    s[start..BackUnicodeSpaces(s, start, |s|)]
  }

  /** The index of the first character at or after `i` that is not Unicode whitespace, or
      `|s|`; everything skipped is whitespace. */
  function SkipUnicodeSpaces(s: string, i: nat): (j: nat)
    requires i <= |s|
    ensures i <= j <= |s| && (j < |s| ==> !IsUnicodeSpace(s[j]))
    ensures forall k :: i <= k < j ==> IsUnicodeSpace(s[k])
    decreases |s| - i
  {
    if i < |s| && IsUnicodeSpace(s[i]) then SkipUnicodeSpaces(s, i + 1) else i
  }

  /** One past the last character of `s[lo..j]` that is not Unicode whitespace, or `lo`;
      everything passed over is whitespace. */
  function BackUnicodeSpaces(s: string, lo: nat, j: nat): (k: nat)
    requires lo <= j <= |s|
    ensures lo <= k <= j && (k > lo ==> !IsUnicodeSpace(s[k - 1]))
    ensures forall m :: k <= m < j ==> IsUnicodeSpace(s[m])
    decreases j
  {
    if j > lo && IsUnicodeSpace(s[j - 1]) then BackUnicodeSpaces(s, lo, j - 1) else j
  }

  /** The unicode strip keeps the slice of `s` between its leading and its trailing
      whitespace: what it drops is whitespace, and what it keeps neither starts nor ends with
      whitespace. */
  lemma UnicodeStripSpec(s: string)
    ensures var r, a := UnicodeStrip(s), SkipUnicodeSpaces(s, 0);
      a + |r| <= |s| && r == s[a..a + |r|] &&
      (forall i :: 0 <= i < a ==> IsUnicodeSpace(s[i])) &&
      (forall i :: a + |r| <= i < |s| ==> IsUnicodeSpace(s[i])) &&
      (r == [] || (!IsUnicodeSpace(r[0]) && !IsUnicodeSpace(r[|r| - 1])))
  {
  }

  /** `str.strip()` keeps the slice of `s` between its leading and its trailing whitespace. */
  lemma StripSpec(s: string)
    ensures var r, a := Strip(s), SkipSpaces(s, 0);
      a + |r| <= |s| && r == s[a..a + |r|] &&
      (forall i :: 0 <= i < a ==> IsSpace(s[i])) &&
      (forall i :: a + |r| <= i < |s| ==> IsSpace(s[i]))
  {
  }

  /** Where the two notions of whitespace agree on every character of `s`, as they do on
      ASCII text without the separators 28 to 31, the unicode strip is `str.strip()`. */
  lemma UnicodeStripAgrees(s: string)
    requires forall i :: 0 <= i < |s| ==> (IsUnicodeSpace(s[i]) <==> IsSpace(s[i]))
    ensures UnicodeStrip(s) == Strip(s)
  {
    UnicodeStripSpec(s);
    StripSpec(s);
    SameSlice(s, SkipUnicodeSpaces(s, 0), UnicodeStrip(s), SkipSpaces(s, 0), Strip(s));
  }

  /** Two slices of `s` that each leave only whitespace around them, and the first of which
      neither starts nor ends with whitespace, are the same slice. */
  lemma SameSlice(s: string, a: nat, r: string, b: nat, t: string)
    requires a + |r| <= |s| && r == s[a..a + |r|] && b + |t| <= |s| && t == s[b..b + |t|]
    requires forall i :: 0 <= i < a ==> IsUnicodeSpace(s[i])
    requires forall i :: a + |r| <= i < |s| ==> IsUnicodeSpace(s[i])
    requires r == [] || (!IsUnicodeSpace(r[0]) && !IsUnicodeSpace(r[|r| - 1]))
    requires forall i :: 0 <= i < b ==> IsUnicodeSpace(s[i])
    requires forall i :: b + |t| <= i < |s| ==> IsUnicodeSpace(s[i])
    requires t == [] || (!IsUnicodeSpace(t[0]) && !IsUnicodeSpace(t[|t| - 1]))
    ensures r == t
  {
    if r != [] {
      assert s[a] == r[0] && s[a + |r| - 1] == r[|r| - 1];
    }
    if t != [] {
      assert s[b] == t[0] && s[b + |t| - 1] == t[|t| - 1];
    }
  }

  /** A no-break space in front of a dash: the unicode strip removes it, `str.strip()` would
      keep it. */
  lemma NoBreakSpaceStripped()
    ensures UnicodeStrip([0xA0 as char, '-']) == "-"
    ensures Strip([0xA0 as char, '-']) == [0xA0 as char, '-']
  {
    var s := [0xA0 as char, '-'];
    assert SkipUnicodeSpaces(s, 0) == 1;
  }

  /** Index of the first occurrence of `c` in `s`, or `|s|` when there is none. */
  function IndexOf(s: string, c: char): (i: nat)
    ensures i <= |s|
    ensures i < |s| ==> s[i] == c
    ensures forall j :: 0 <= j < i ==> s[j] != c
  {
    if s == [] then 0 else if s[0] == c then 0 else 1 + IndexOf(s[1..], c)
  }

  /** `s.split(c)`: the pieces between occurrences of `c`; there is always one more piece than
      there are occurrences. */
  function Split(s: string, c: char): (parts: seq<string>)
    ensures |parts| >= 1
    ensures forall k :: 0 <= k < |parts| ==> c !in parts[k]
    decreases |s|
  {
    var i := IndexOf(s, c);
    if i == |s| then [s] else [s[..i]] + Split(s[i + 1..], c)
  }

  /** Splitting `a`, `c`, `b` where neither part holds `c` gives back the two parts. */
  lemma SplitPair(a: string, b: string, c: char)
    requires forall k :: 0 <= k < |a| ==> a[k] != c
    requires forall k :: 0 <= k < |b| ==> b[k] != c
    ensures Split(a + [c] + b, c) == [a, b]
  {
    var s := a + [c] + b;
    var i := IndexOf(s, c);
    assert s[|a|] == c;
    assert i == |a|;
    assert s[..i] == a && s[i + 1..] == b;
  }

  /** Number of occurrences of `c` in `s`. */
  function Count(s: string, c: char): nat {
    if s == [] then 0 else (if s[0] == c then 1 else 0) + Count(s[1..], c)
  }

  /** `s.split(c)` has exactly two pieces exactly when `c` occurs once, and they are then the
      text before and after that occurrence. */
  lemma {:induction false} SplitCount(s: string, c: char)
    ensures |Split(s, c)| == Count(s, c) + 1
    decreases |s|
  {
    var i := IndexOf(s, c);
    CountNone(s[..i], c);
    CountSplit(s, i, c);
    if i < |s| {
      SplitCount(s[i + 1..], c);
      CountSplit(s, i + 1, c);
      assert s[..i + 1] == s[..i] + [c];
      CountSplit(s[..i + 1], i, c);
      assert s[..i + 1][..i] == s[..i];
      assert s[..i + 1][i..] == [c];
    }
  }

  lemma {:induction false} CountNone(s: string, c: char)
    requires c !in s
    ensures Count(s, c) == 0
  {
    if s != [] {
      CountNone(s[1..], c);
    }
  }

  lemma {:induction false} CountSplit(s: string, i: nat, c: char)
    requires i <= |s|
    ensures Count(s, c) == Count(s[..i], c) + Count(s[i..], c)
  {
    if i > 0 {
      CountSplit(s[1..], i - 1, c);
      assert s[1..][..i - 1] == s[..i][1..];
      assert s[1..][i - 1..] == s[i..];
    }
  }
}
