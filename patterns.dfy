/** The regular expressions the Google scrapers and the ticker generator search with, written
    out as hand-coded matchers. Each matcher is paired with a declarative description of the
    text its pattern matches, and `re.search` is the leftmost position where it matches. */
module Patterns {
  import opened Wrappers
  import opened PyStrings
  import opened Decimal

  const Digits: set<char> := set c: char | IsDigit(c)
  const Signs: set<char> := {'+', '-'}
  const Uppers: set<char> := set c: char | IsUpper(c)

  /** The end of the run of characters of `cs` that starts at `i`: a greedy `[cs]*`. */
  function RunEnd(s: string, i: nat, cs: set<char>): (e: nat)
    requires i <= |s|
    ensures i <= e <= |s|
    ensures forall k :: i <= k < e ==> s[k] in cs
    ensures e < |s| ==> s[e] !in cs
    decreases |s| - i
  {
    if i < |s| && s[i] in cs then RunEnd(s, i + 1, cs) else i
  }

  /** A run that ends where the characters of `cs` stop is the greedy run. */
  lemma {:induction false} RunEndUnique(s: string, i: nat, e: nat, cs: set<char>)
    requires i <= e <= |s| && forall k :: i <= k < e ==> s[k] in cs
    requires e < |s| ==> s[e] !in cs
    ensures RunEnd(s, i, cs) == e
    decreases |s| - i
  {
    if i < e {
      RunEndUnique(s, i + 1, e, cs);
    }
  }

  predicate AllIn(s: string, cs: set<char>) {
    forall k :: 0 <= k < |s| ==> s[k] in cs
  }

  // ---------------------------------------------------------------------------------------
  // The duration pattern `<dur>[\*]{0,1}[ ]+([\+\-]{1}[\d]+\.[\d]+)%`

  /** A return as the pattern captures it: a sign, digits, one point and digits. */
  predicate IsReturnText(v: string) {
    |v| >= 4 && v[0] in Signs && '.' in v[2..|v| - 1] &&
    (forall i :: 1 <= i < |v| ==> v[i] in Digits || v[i] == '.') &&
    (forall i, j :: 1 <= i < j < |v| && v[i] == '.' ==> v[j] != '.')
  }

  /** `s` holds `t` at position `i`. */
  predicate At(s: string, i: nat, t: string) {
    i + |t| <= |s| && s[i..i + |t|] == t
  }

  /** The pattern matches at `p` by reading `dur`, then `star` (empty or one '*'), then the
      run of spaces `spaces`, then the captured return `v`, then a '%'. */
  predicate ReturnMatch(s: string, p: nat, dur: string, star: string, spaces: string, v: string) {
    (star == "" || star == "*") && spaces != [] && AllIn(spaces, {' '}) && IsReturnText(v) &&
    At(s, p, dur) && At(s, p + |dur|, star) && At(s, p + |dur| + |star|, spaces) &&
    At(s, p + |dur| + |star| + |spaces|, v) && At(s, p + |dur| + |star| + |spaces| + |v|, "%")
  }

  /** `[\+\-]{1}[\d]+\.[\d]+%` from position `a`: where the '%' is, when it matches. */
  function NumberAt(s: string, a: nat): (c: Option<nat>)
    requires a <= |s|
    ensures c.Some? ==> a < c.value < |s| && s[c.value] == '%'
  {
    if a == |s| || s[a] !in Signs then None
    else
      var b := RunEnd(s, a + 1, Digits);
      if b == a + 1 || b == |s| || s[b] != '.' then None
      else
        var c := RunEnd(s, b + 1, Digits);
        if c == b + 1 || c == |s| || s[c] != '%' then None
        else Some(c)
  }

  /** What `NumberAt` reads is a return. */
  lemma NumberAtSound(s: string, a: nat)
    requires a <= |s| && NumberAt(s, a).Some?
    ensures IsReturnText(s[a..NumberAt(s, a).value])
  {
    var b := RunEnd(s, a + 1, Digits);
    ReturnTextOf(s, a, b, NumberAt(s, a).value);
  }

  lemma ReturnTextOf(s: string, a: nat, b: nat, c: nat)
    requires a < b < c <= |s| && s[a] in Signs && s[b] == '.'
    requires forall k :: a < k < b ==> s[k] in Digits
    requires forall k :: b < k < c ==> s[k] in Digits
    requires b > a + 1 && c > b + 1
    ensures IsReturnText(s[a..c])
  {
    var v := s[a..c];
    assert v[b - a] == '.' && v[b - a] in v[2..|v| - 1];
  }

  /** A return followed by '%' is read by `NumberAt` up to that '%'. */
  lemma NumberAtComplete(s: string, a: nat, v: string)
    requires IsReturnText(v) && At(s, a, v) && At(s, a + |v|, "%")
    ensures NumberAt(s, a) == Some(a + |v|)
  {
    var dot :| 2 <= dot < |v| - 1 && v[dot] == '.';
    var b, c := a + dot, a + |v|;
    assert s[c] == "%"[0];
    assert forall k :: a <= k < c ==> s[k] == v[k - a];
    forall k | a + 1 <= k < b ensures s[k] in Digits {
      assert v[k - a] != '.';
    }
    forall k | b + 1 <= k < c ensures s[k] in Digits {
      assert v[k - a] != '.';
    }
    RunEndUnique(s, a + 1, b, Digits);
    RunEndUnique(s, b + 1, c, Digits);
  }

  /** Where the spaces after the duration start: one '*' is skipped when there is one. */
  function StarEnd(s: string, q: nat): (r: nat)
    requires q <= |s|
    ensures r == q || (r == q + 1 && q < |s| && s[q] == '*')
    ensures r <= |s|
  {
    if q < |s| && s[q] == '*' then q + 1 else q
  }

  /** What `re.match` of the duration pattern does at position `p`: the group it captures,
      or `None`. The optional star, the spaces and both digit runs are greedy; giving any of
      them back cannot help, because the next element of the pattern never matches the
      character given back. */
  function ReturnAt(s: string, p: nat, dur: string): Option<string> {
    if !At(s, p, dur) then None
    else
      var r := StarEnd(s, p + |dur|);
      var a := RunEnd(s, r, {' '});
      if a == r then None
      else
        match NumberAt(s, a)
        case None => None
        case Some(c) => Some(s[a..c])
  }

  /** The pattern matches at `p` with `v` as its group. */
  ghost predicate ReturnMatchesAt(s: string, p: nat, dur: string, v: string) {
    exists star, spaces :: ReturnMatch(s, p, dur, star, spaces, v)
  }

  lemma AtSlice(s: string, i: nat, j: nat)
    requires i <= j <= |s|
    ensures At(s, i, s[i..j])
  {
  }

  /** The matcher only accepts what the pattern describes. */
  lemma ReturnAtSound(s: string, p: nat, dur: string)
    requires ReturnAt(s, p, dur).Some?
    ensures ReturnMatchesAt(s, p, dur, ReturnAt(s, p, dur).value)
  {
    var q := p + |dur|;
    var r := StarEnd(s, q);
    var a := RunEnd(s, r, {' '});
    var c := NumberAt(s, a).value;
    NumberAtSound(s, a);
    assert ReturnAt(s, p, dur).value == s[a..c];
    ReturnMatchOf(s, p, dur, r, a, c);
  }

  lemma ReturnMatchOf(s: string, p: nat, dur: string, r: nat, a: nat, c: nat)
    requires At(s, p, dur) && r < a < c < |s|
    requires r == p + |dur| || (r == p + |dur| + 1 && s[p + |dur|] == '*')
    requires forall k :: r <= k < a ==> s[k] in {' '}
    requires s[c] == '%' && IsReturnText(s[a..c])
    ensures ReturnMatch(s, p, dur, s[p + |dur|..r], s[r..a], s[a..c])
  {
    var q := p + |dur|;
    var star, spaces, v := s[q..r], s[r..a], s[a..c];
    AtSlice(s, q, r);
    AtSlice(s, r, a);
    AtSlice(s, a, c);
    assert At(s, c, "%") by {
      assert s[c..c + 1] == [s[c]];
    }
    assert star == "" || star == "*" by {
      if r == q + 1 { assert star == [s[q]]; }
    }
    assert AllIn(spaces, {' '}) by {
      assert forall k :: 0 <= k < |spaces| ==> spaces[k] == s[r + k];
    }
  }

  /** Everything the pattern describes is found by the matcher, with the same group. */
  lemma ReturnAtComplete(s: string, p: nat, dur: string, star: string, spaces: string, v: string)
    requires ReturnMatch(s, p, dur, star, spaces, v)
    ensures ReturnAt(s, p, dur) == Some(v)
  {
    var q := p + |dur|;
    var r := q + |star|;
    var a := r + |spaces|;
    var c := a + |v|;
    assert At(s, q, star) && At(s, r, spaces) && At(s, a, v) && At(s, c, "%");
    StarEndOf(s, q, star, spaces);
    SpacesEndOf(s, r, spaces, v);
    NumberAtComplete(s, a, v);
    ReturnAtFrom(s, p, dur, r, a, c);
  }

  lemma ReturnAtFrom(s: string, p: nat, dur: string, r: nat, a: nat, c: nat)
    requires At(s, p, dur) && StarEnd(s, p + |dur|) == r && r <= |s| && RunEnd(s, r, {' '}) == a
    requires a != r && a <= |s| && NumberAt(s, a) == Some(c)
    ensures ReturnAt(s, p, dur) == Some(s[a..c])
  {
  }

  lemma StarEndOf(s: string, q: nat, star: string, spaces: string)
    requires (star == "" || star == "*") && spaces != [] && AllIn(spaces, {' '})
    requires At(s, q, star) && At(s, q + |star|, spaces)
    ensures StarEnd(s, q) == q + |star|
  {
    assert s[q + |star|] == spaces[0] == ' ';
    if star == "*" {
      assert s[q] == star[0];
    }
  }

  lemma SpacesEndOf(s: string, r: nat, spaces: string, v: string)
    requires spaces != [] && AllIn(spaces, {' '}) && IsReturnText(v)
    requires At(s, r, spaces) && At(s, r + |spaces|, v)
    ensures RunEnd(s, r, {' '}) == r + |spaces|
  {
    var a := r + |spaces|;
    forall k | r <= k < a ensures s[k] in {' '} {
      assert s[k] == spaces[k - r];
    }
    assert s[a] == v[0] && v[0] in Signs;
    RunEndUnique(s, r, a, {' '});
  }

  /** The duration pattern matches at `p` with group `v` exactly when the matcher says so. */
  lemma ReturnAtMatches(s: string, p: nat, dur: string, v: string)
    ensures ReturnAt(s, p, dur) == Some(v) <==> ReturnMatchesAt(s, p, dur, v)
  {
    if ReturnAt(s, p, dur) == Some(v) {
      ReturnAtSound(s, p, dur);
    }
    if ReturnMatchesAt(s, p, dur, v) {
      var star, spaces :| ReturnMatch(s, p, dur, star, spaces, v);
      ReturnAtComplete(s, p, dur, star, spaces, v);
    }
  }

  // ---------------------------------------------------------------------------------------
  // re.search: the leftmost position where a pattern matches

  /** The first of `at(p)`, `at(p + 1)`, ..., `at(n)` that is a match. */
  function FirstFrom(at: nat -> Option<string>, p: nat, n: nat): Option<string>
    decreases n + 1 - p
  {
    if p > n then None
    else match at(p)
      case Some(v) => Some(v)
      case None => FirstFrom(at, p + 1, n)
  }

  /** `v` is what `at` gives at the first position between `p` and `n` where it gives
      anything. */
  ghost predicate FirstIs(at: nat -> Option<string>, p: nat, n: nat, v: string) {
    exists i :: p <= i <= n && at(i) == Some(v) && forall j :: p <= j < i ==> at(j).None?
  }

  lemma {:induction false} FirstFromSpec(at: nat -> Option<string>, p: nat, n: nat)
    ensures FirstFrom(at, p, n).None? <==> forall i :: p <= i <= n ==> at(i).None?
    ensures FirstFrom(at, p, n).Some? ==> FirstIs(at, p, n, FirstFrom(at, p, n).value)
    decreases n + 1 - p
  {
    if p <= n {
      if at(p).None? {
        FirstFromSpec(at, p + 1, n);
        var found := FirstFrom(at, p + 1, n);
        if found.Some? {
          var i :| p + 1 <= i <= n && at(i) == found && forall j :: p + 1 <= j < i ==> at(j).None?;
          assert forall j :: p <= j < i ==> at(j).None?;
        }
      } else {
        FirstHere(at, p, n);
      }
    }
  }

  lemma FirstHere(at: nat -> Option<string>, p: nat, n: nat)
    requires p <= n && at(p).Some?
    ensures FirstIs(at, p, n, at(p).value)
  {
  }

  /** `re.search` of the duration pattern: the group of its leftmost match in `s`. */
  function ReturnSearch(s: string, dur: string): Option<string> {
    FirstFrom((i: nat) => ReturnAt(s, i, dur), 0, |s|)
  }

  /** The pattern matches somewhere in `s` at position `i` with group `v`, and nowhere
      before `i`. */
  ghost predicate FirstReturnMatch(s: string, dur: string, v: string) {
    exists i :: 0 <= i <= |s| && ReturnMatchesAt(s, i, dur, v) &&
      forall j, w :: 0 <= j < i ==> !ReturnMatchesAt(s, j, dur, w)
  }

  /** The search finds the group of the leftmost match the pattern describes, and finds
      nothing exactly when the pattern matches nowhere. */
  lemma ReturnSearchSpec(s: string, dur: string)
    ensures ReturnSearch(s, dur).None? <==> forall i, w :: 0 <= i <= |s| ==> !ReturnMatchesAt(s, i, dur, w)
    ensures ReturnSearch(s, dur).Some? ==> FirstReturnMatch(s, dur, ReturnSearch(s, dur).value)
  {
    if ReturnSearch(s, dur).Some? {
      var v := ReturnSearch(s, dur).value;
      var i := ReturnSearchFound(s, dur, v);
      assert ReturnMatchesAt(s, i, dur, v);
    } else {
      ReturnSearchMissing(s, dur);
    }
  }

  /** A search that gives `v` found it at the leftmost position where the pattern matches. */
  lemma ReturnSearchFound(s: string, dur: string, v: string) returns (i: nat)
    requires ReturnSearch(s, dur) == Some(v)
    ensures i <= |s| && ReturnMatchesAt(s, i, dur, v)
    ensures forall j, w :: 0 <= j < i ==> !ReturnMatchesAt(s, j, dur, w)
  {
    var at := (i: nat) => ReturnAt(s, i, dur);
    FirstFromSpec(at, 0, |s|);
    i :| 0 <= i <= |s| && at(i) == Some(v) && forall j :: 0 <= j < i ==> at(j).None?;
    ReturnAtMatches(s, i, dur, v);
    forall j, w | 0 <= j < i ensures !ReturnMatchesAt(s, j, dur, w) {
      assert at(j).None?;
      ReturnAtMatches(s, j, dur, w);
    }
  }

  /** A search that finds nothing means the pattern matches nowhere. */
  lemma ReturnSearchMissing(s: string, dur: string)
    requires ReturnSearch(s, dur).None?
    ensures forall i, w :: 0 <= i <= |s| ==> !ReturnMatchesAt(s, i, dur, w)
  {
    var at := (i: nat) => ReturnAt(s, i, dur);
    FirstFromSpec(at, 0, |s|);
    forall i, w | 0 <= i <= |s| ensures !ReturnMatchesAt(s, i, dur, w) {
      assert at(i).None?;
      ReturnAtMatches(s, i, dur, w);
    }
  }


  /** What the search captures is a return. */
  lemma ReturnSearchIsReturn(s: string, dur: string)
    requires ReturnSearch(s, dur).Some?
    ensures IsReturnText(ReturnSearch(s, dur).value)
  {
    var at := (i: nat) => ReturnAt(s, i, dur);
    FirstFromSpec(at, 0, |s|);
    var v := ReturnSearch(s, dur).value;
    var i :| 0 <= i <= |s| && at(i) == Some(v) && forall j :: 0 <= j < i ==> at(j).None?;
    ReturnAtMatches(s, i, dur, v);
  }

  /** A return and a signed text are ASCII: a sign, digits and dots. */
  lemma SignedTextsAscii(v: string)
    ensures IsReturnText(v) || IsSignedText(v) ==> IsAscii(v)
  {
    if IsReturnText(v) || IsSignedText(v) {
      forall i | 0 <= i < |v| ensures v[i] < 128 as char {
        if i > 0 && v[i] != '.' {
          assert v[i] in Digits;
        }
      }
    }
  }

  /** A captured return is a decimal number `float` accepts. */
  lemma ReturnIsDecimal(v: string)
    requires IsReturnText(v)
    ensures IsDecimalText(v) && Float(v).Ok?
  {
    ReturnParts(v);
    forall i | 0 <= i < |v| ensures !IsSpace(v[i]) {
      assert i == 0 || v[i] in Digits || v[i] == '.';
    }
    NoSpaceIsStripped(v);
  }

  lemma ReturnParts(v: string)
    requires IsReturnText(v)
    ensures IsDecimalText(v)
  {
    var dot :| 2 <= dot < |v| - 1 && v[dot] == '.';
    var body := v[1..];
    assert Unsigned(v) == body;
    assert forall k :: 0 <= k < dot - 1 ==> body[k] != '.';
    assert IndexOf(body, '.') == dot - 1;
    assert WholeDigits(body) == v[1..dot];
    assert FracDigits(body) == v[dot + 1..];
  }

  // ---------------------------------------------------------------------------------------
  // The row pattern of the alternate performance scraper, `[ ]+([\+\-]\d*\.*\d*)%*`

  /** What the group `[\+\-]\d*\.*\d*` can match: a sign, then digits and points with all
      the points side by side. */
  predicate IsSignedText(v: string) {
    |v| >= 1 && v[0] in Signs &&
    (forall i :: 1 <= i < |v| ==> v[i] in Digits || v[i] == '.') &&
    (forall i, j, k :: 1 <= i < j < k < |v| && v[i] == '.' && v[k] == '.' ==> v[j] == '.')
  }

  /** The group at `a` cannot be extended by the next character: the greedy quantifiers have
      taken all they can. */
  predicate Maximal(s: string, a: nat, v: string) {
    a + |v| <= |s| && (a + |v| == |s| || !IsSignedText(v + [s[a + |v|]]))
  }

  /** The pattern matches at `p` by reading the spaces `spaces` and then the group `v`, which
      is as long as the group can be there. */
  predicate SignedMatch(s: string, p: nat, spaces: string, v: string) {
    spaces != [] && AllIn(spaces, {' '}) && IsSignedText(v) &&
    At(s, p, spaces) && At(s, p + |spaces|, v) && Maximal(s, p + |spaces|, v)
  }

  ghost predicate SignedMatchesAt(s: string, p: nat, v: string) {
    exists spaces :: SignedMatch(s, p, spaces, v)
  }

  /** Where the greedy `\d*\.*\d*` after the sign at `a` stops. */
  function SignedEnd(s: string, a: nat): (e: nat)
    requires a < |s|
    ensures a < e <= |s|
  {
    RunEnd(s, RunEnd(s, RunEnd(s, a + 1, Digits), {'.'}), Digits)
  }

  /** What `re.match` of the row pattern does at `p`: the group, or `None`. Only the spaces
      could give characters back, and the character given back, a space, is never a sign. */
  function SignedAt(s: string, p: nat): Option<string> {
    if !(p < |s| && s[p] == ' ') then None
    else
      var a := RunEnd(s, p, {' '});
      if a == |s| || s[a] !in Signs then None
      else Some(s[a..SignedEnd(s, a)])
  }

  /** The greedy group is a signed text that cannot be extended. */
  lemma SignedEndSound(s: string, a: nat)
    requires a < |s| && s[a] in Signs
    ensures IsSignedText(s[a..SignedEnd(s, a)]) && Maximal(s, a, s[a..SignedEnd(s, a)])
  {
    var b := RunEnd(s, a + 1, Digits);
    var d := RunEnd(s, b, {'.'});
    var e := RunEnd(s, d, Digits);
    var v := s[a..e];
    assert forall i :: 1 <= i < |v| ==> v[i] == s[a + i];
    forall i, j, k | 1 <= i < j < k < |v| && v[i] == '.' && v[k] == '.' ensures v[j] == '.' {
      assert b <= a + i && a + k < d by {
        assert s[a + i] == '.' && s[a + k] == '.';
      }
    }
    if e < |s| {
      var w := v + [s[e]];
      assert w[|v|] == s[e] && s[e] !in Digits;
      if s[e] == '.' {
        assert b < d < e;
        assert w[b - a] == '.' && w[d - a] != '.';
      }
    }
  }

  /** A prefix of a signed text that still holds the sign is a signed text. */
  lemma SignedPrefix(w: string, n: nat)
    requires IsSignedText(w) && 1 <= n <= |w|
    ensures IsSignedText(w[..n])
  {
  }

  /** A signed text that a longer one starting at the same place extends, extended by one
      more character, is still a signed text. */
  lemma SignedExtends(s: string, a: nat, v: string, w: string)
    requires IsSignedText(v) && IsSignedText(w) && At(s, a, v) && At(s, a, w) && |v| < |w|
    ensures a + |v| < |s| && IsSignedText(v + [s[a + |v|]])
  {
    assert w[..|v| + 1] == v + [s[a + |v|]];
    SignedPrefix(w, |v| + 1);
  }

  /** At most one maximal signed text starts at `a`. */
  lemma MaximalUnique(s: string, a: nat, v: string, w: string)
    requires IsSignedText(v) && IsSignedText(w) && At(s, a, v) && At(s, a, w)
    requires Maximal(s, a, v) && Maximal(s, a, w)
    ensures v == w
  {
    if |v| < |w| {
      SignedExtends(s, a, v, w);
    } else if |w| < |v| {
      SignedExtends(s, a, w, v);
    } else {
      assert v == s[a..a + |v|] == w;
    }
  }

  lemma SignedAtSound(s: string, p: nat)
    requires SignedAt(s, p).Some?
    ensures SignedMatchesAt(s, p, SignedAt(s, p).value)
  {
    var a := RunEnd(s, p, {' '});
    SignedEndSound(s, a);
    var spaces := s[p..a];
    AtSlice(s, p, a);
    AtSlice(s, a, SignedEnd(s, a));
    assert AllIn(spaces, {' '}) by {
      assert forall k :: 0 <= k < |spaces| ==> spaces[k] == s[p + k];
    }
    assert SignedMatch(s, p, spaces, SignedAt(s, p).value);
  }

  lemma SignedAtComplete(s: string, p: nat, spaces: string, v: string)
    requires SignedMatch(s, p, spaces, v)
    ensures SignedAt(s, p) == Some(v)
  {
    var a := p + |spaces|;
    assert s[p] == spaces[0];
    forall k | p <= k < a ensures s[k] in {' '} {
      assert s[k] == spaces[k - p];
    }
    assert s[a] == v[0];
    RunEndUnique(s, p, a, {' '});
    SignedEndSound(s, a);
    AtSlice(s, a, SignedEnd(s, a));
    MaximalUnique(s, a, v, s[a..SignedEnd(s, a)]);
  }

  /** The row pattern matches at `p` with group `v` exactly when the matcher says so. */
  lemma SignedAtMatches(s: string, p: nat, v: string)
    ensures SignedAt(s, p) == Some(v) <==> SignedMatchesAt(s, p, v)
  {
    if SignedAt(s, p) == Some(v) {
      SignedAtSound(s, p);
    }
    if SignedMatchesAt(s, p, v) {
      var spaces :| SignedMatch(s, p, spaces, v);
      SignedAtComplete(s, p, spaces, v);
    }
  }

  /** `re.search` of the row pattern. */
  function SignedSearch(s: string): Option<string> {
    FirstFrom((i: nat) => SignedAt(s, i), 0, |s|)
  }

  ghost predicate FirstSignedMatch(s: string, v: string) {
    exists i :: 0 <= i <= |s| && SignedMatchesAt(s, i, v) &&
      forall j, w :: 0 <= j < i ==> !SignedMatchesAt(s, j, w)
  }

  /** The search finds the group of the leftmost match, and nothing exactly when the row
      pattern matches nowhere. */
  lemma SignedSearchSpec(s: string)
    ensures SignedSearch(s).None? <==> forall i, w :: 0 <= i <= |s| ==> !SignedMatchesAt(s, i, w)
    ensures SignedSearch(s).Some? ==> FirstSignedMatch(s, SignedSearch(s).value)
  {
    if SignedSearch(s).Some? {
      var i := SignedSearchFirst(s);
    } else {
      SignedSearchNone(s);
    }
  }

  lemma SignedSearchNone(s: string)
    requires SignedSearch(s).None?
    ensures forall i, w :: 0 <= i <= |s| ==> !SignedMatchesAt(s, i, w)
  {
    var at := (i: nat) => SignedAt(s, i);
    FirstFromSpec(at, 0, |s|);
    forall i, w | 0 <= i <= |s| ensures !SignedMatchesAt(s, i, w) {
      assert at(i).None?;
      SignedAtMatches(s, i, w);
    }
  }

  lemma SignedSearchFirst(s: string) returns (i: nat)
    requires SignedSearch(s).Some?
    ensures i <= |s| && SignedMatchesAt(s, i, SignedSearch(s).value)
    ensures forall j, w :: 0 <= j < i ==> !SignedMatchesAt(s, j, w)
  {
    var at := (i: nat) => SignedAt(s, i);
    FirstFromSpec(at, 0, |s|);
    var v := SignedSearch(s).value;
    i :| 0 <= i <= |s| && at(i) == Some(v) && forall j :: 0 <= j < i ==> at(j).None?;
    SignedAtMatches(s, i, v);
    forall j, w | 0 <= j < i ensures !SignedMatchesAt(s, j, w) {
      assert at(j).None?;
      SignedAtMatches(s, j, w);
    }
  }

  /** The group the search finds is a signed text. */
  lemma SignedSearchIsSigned(s: string)
    requires SignedSearch(s).Some?
    ensures IsSignedText(SignedSearch(s).value)
  {
    var i := SignedSearchFirst(s);
    var spaces :| SignedMatch(s, i, spaces, SignedSearch(s).value);
  }

  // ---------------------------------------------------------------------------------------
  // The ticker pattern `/[A-Z]{2,5}`, with the slash dropped from the match

  /** The pattern matches at `p` as "/" followed by `t`: two to five capitals, as many as
      there are up to five. */
  predicate TickerMatch(s: string, p: nat, t: string) {
    At(s, p, "/") && 2 <= |t| <= 5 && AllIn(t, Uppers) && At(s, p + 1, t) &&
    (|t| == 5 || p + 1 + |t| == |s| || s[p + 1 + |t|] !in Uppers)
  }

  /** What `re.match` of the ticker pattern does at `p`, without the slash. */
  function TickerAt(s: string, p: nat): Option<string> {
    if !(p < |s| && s[p] == '/') then None
    else
      var u := RunEnd(s, p + 1, Uppers);
      if u < p + 3 then None
      else Some(s[p + 1..if u < p + 6 then u else p + 6])
  }

  lemma TickerAtMatches(s: string, p: nat, t: string)
    ensures TickerAt(s, p) == Some(t) <==> TickerMatch(s, p, t)
  {
    if TickerAt(s, p) == Some(t) {
      assert s[p..p + 1] == [s[p]];
      AtSlice(s, p + 1, p + 1 + |t|);
      assert AllIn(t, Uppers) by {
        assert forall k :: 0 <= k < |t| ==> t[k] == s[p + 1 + k];
      }
    }
    if TickerMatch(s, p, t) {
      assert s[p] == "/"[0];
      var e := p + 1 + |t|;
      forall k | p + 1 <= k < e ensures s[k] in Uppers {
        assert s[k] == t[k - p - 1];
      }
      if |t| < 5 {
        RunEndUnique(s, p + 1, e, Uppers);
      } else {
        assert RunEnd(s, p + 1, Uppers) >= e by {
          RunEndCovers(s, p + 1, e, Uppers);
        }
      }
      assert s[p + 1..e] == t;
    }
  }

  /** A greedy run reaches at least as far as any run of the same characters. */
  lemma {:induction false} RunEndCovers(s: string, i: nat, e: nat, cs: set<char>)
    requires i <= e <= |s| && forall k :: i <= k < e ==> s[k] in cs
    ensures RunEnd(s, i, cs) >= e
    decreases |s| - i
  {
    if i < e {
      RunEndCovers(s, i + 1, e, cs);
    }
  }

  /** `re.findall(pattern, s)[0][1:]`: the leftmost ticker, or IndexError when there is
      none. */
  function FirstTicker(s: string): (r: Result<string>)
    ensures r.Err? ==> r.error == IndexError
  {
    match FirstFrom((i: nat) => TickerAt(s, i), 0, |s|)
    case Some(t) => Ok(t)
    case None => Err(IndexError)
  }

  ghost predicate LeftmostTicker(s: string, t: string) {
    exists i :: 0 <= i <= |s| && TickerMatch(s, i, t) &&
      forall j, w :: 0 <= j < i ==> !TickerMatch(s, j, w)
  }

  /** The ticker found is two to five capitals following the leftmost slash the pattern
      matches at; IndexError is raised exactly when the pattern matches nowhere. */
  lemma FirstTickerSpec(s: string)
    ensures FirstTicker(s).Err? <==> forall i, w :: 0 <= i <= |s| ==> !TickerMatch(s, i, w)
    ensures FirstTicker(s).Ok? ==>
      LeftmostTicker(s, FirstTicker(s).value) &&
      2 <= |FirstTicker(s).value| <= 5 && AllIn(FirstTicker(s).value, Uppers)
  {
    var at := (i: nat) => TickerAt(s, i);
    FirstFromSpec(at, 0, |s|);
    forall i, w | 0 <= i <= |s| && TickerMatch(s, i, w) ensures at(i).Some? {
      TickerAtMatches(s, i, w);
    }
    if FirstTicker(s).Ok? {
      var t := FirstTicker(s).value;
      var i :| 0 <= i <= |s| && at(i) == Some(t) && forall j :: 0 <= j < i ==> at(j).None?;
      TickerAtMatches(s, i, t);
      forall j, w | 0 <= j < i ensures !TickerMatch(s, j, w) {
        TickerAtMatches(s, j, w);
      }
    } else {
      forall i, w | 0 <= i <= |s| ensures !TickerMatch(s, i, w) {
        TickerAtMatches(s, i, w);
      }
    }
  }
}
