/** Recognisers for the three version regexes. Each has the shape `(T)D?(T)?D?(T)?D?(T)?`:
    a mandatory first token `T`, then three times an optional delimiter `D` followed by an
    optional token. Every piece after the first token is optional, so a JavaScript `exec` never
    backtracks: at the leftmost position where a token starts, each greedy piece takes what it
    can, left to right. `Exec` is that scan. */
module VersionRegex {
  import opened Wrappers
  import opened Text

  datatype VersionRegex =
    | NumberWithDotDelimiter    // /(\d+)\.?(\d+)?\.?(\d+)?\.?(\d+)?/
    | NumberWithCommaDelimiter  // /(\d+)\,?(\d+)?\,?(\d+)?\,?(\d+)?/
    | UpdateRule                // /(\?|\*|\^|\d+)\.?(\?|\*|\^|\d+)?\.?(\?|\*|\^|\d+)?\.?(\?|\*|\^|\d+)?/
  {
    function Delimiter(): char {
      if NumberWithCommaDelimiter? then ',' else '.'
    }

    /** Whether a token may also be one of the slot symbols `?`, `*`, `^`. */
    predicate AllowsSymbols() {
      UpdateRule?
    }

    /** The regex as `RegExp.prototype.toString` prints it. */
    function Source(): string {
      match this
      case NumberWithDotDelimiter => "/(\\d+)\\.?(\\d+)?\\.?(\\d+)?\\.?(\\d+)?/"
      case NumberWithCommaDelimiter => "/(\\d+)\\,?(\\d+)?\\,?(\\d+)?\\,?(\\d+)?/"
      case UpdateRule =>
        "/(\\?|\\*|\\^|\\d+)\\.?(\\?|\\*|\\^|\\d+)?\\.?(\\?|\\*|\\^|\\d+)?\\.?(\\?|\\*|\\^|\\d+)?/"
    }
  }

  /** The two regexes whose tokens are numbers only. */
  type NumberRegex = r: VersionRegex | !r.UpdateRule? witness NumberWithDotDelimiter

  predicate IsSlotSymbol(c: char) {
    c == '?' || c == '*' || c == '^'
  }

  predicate IsTokenStart(r: VersionRegex, c: char) {
    IsDigit(c) || (r.AllowsSymbols() && IsSlotSymbol(c))
  }

  /** What one group of `r` can capture. */
  predicate IsToken(r: VersionRegex, t: string) {
    IsNumeral(t) || (r.AllowsSymbols() && |t| == 1 && IsSlotSymbol(t[0]))
  }

  /** The end of the longest run of digits starting at `i` (`\d+` is greedy). */
  function DigitsEnd(s: string, i: nat): (e: nat)
    requires i <= |s|
    ensures i <= e <= |s| && (forall j :: i <= j < e ==> IsDigit(s[j])) && (e == |s| || !IsDigit(s[e]))
    decreases |s| - i
  {
    if i < |s| && IsDigit(s[i]) then DigitsEnd(s, i + 1) else i
  }

  /** The end of the token starting at `i`, or `i` itself when none starts there. */
  function TokenEnd(r: VersionRegex, s: string, i: nat): (e: nat)
    requires i <= |s|
    ensures i <= e <= |s|
    ensures e > i <==> i < |s| && IsTokenStart(r, s[i])
    ensures forall j :: i <= j < e ==> IsTokenStart(r, s[j])
  {
    if i < |s| && r.AllowsSymbols() && IsSlotSymbol(s[i]) then i + 1 else DigitsEnd(s, i)
  }

  /** What a token end delimits is a token. */
  lemma TokenEndIsToken(r: VersionRegex, s: string, i: nat)
    requires i <= |s|
    ensures TokenEnd(r, s, i) > i ==> IsToken(r, s[i..TokenEnd(r, s, i)])
  {
    var e := TokenEnd(r, s, i);
    if e > i && !(r.AllowsSymbols() && IsSlotSymbol(s[i])) {
      assert forall j :: 0 <= j < e - i ==> s[i..e][j] == s[i + j];
    }
  }

  /** `n` times an optional delimiter then an optional token, starting at `p`: the captured
      tokens (`None` for a group that did not take part) and where the scan stopped. */
  function OptionalGroups(r: VersionRegex, s: string, p: nat, n: nat): (res: (seq<Option<string>>, nat))
    requires p <= |s|
    ensures |res.0| == n && p <= res.1 <= |s|
    decreases n
  {
    if n == 0 then ([], p)
    else
      var q := if p < |s| && s[p] == r.Delimiter() then p + 1 else p;
      var e := TokenEnd(r, s, q);
      var rest := OptionalGroups(r, s, e, n - 1);
      ([if e > q then Some(s[q..e]) else None] + rest.0, rest.1)
  }

  /** Every group an optional piece captures is a token. */
  lemma {:induction false} OptionalGroupsAreTokens(r: VersionRegex, s: string, p: nat, n: nat)
    requires p <= |s|
    ensures forall k :: 0 <= k < n && OptionalGroups(r, s, p, n).0[k].Some? ==> IsToken(r, OptionalGroups(r, s, p, n).0[k].value)
    decreases n
  {
    if n > 0 {
      var q := if p < |s| && s[p] == r.Delimiter() then p + 1 else p;
      TokenEndIsToken(r, s, q);
      OptionalGroupsAreTokens(r, s, TokenEnd(r, s, q), n - 1);
    }
  }

  /** The result of `exec`: where the match starts, the matched text (`m[0]`) and the four
      groups (`captures[k]` is `m[k + 1]`, `None` for `undefined`). */
  datatype RegexMatch = RegexMatch(index: nat, text: string, captures: seq<Option<string>>)

  /** The leftmost position at or after `i` where a token starts, or `|s|`. */
  function FirstTokenStart(r: VersionRegex, s: string, i: nat): (k: nat)
    requires i <= |s|
    ensures i <= k <= |s|
    ensures k < |s| ==> IsTokenStart(r, s[k])
    ensures forall j :: i <= j < k ==> !IsTokenStart(r, s[j])
    decreases |s| - i
  {
    if i == |s| || IsTokenStart(r, s[i]) then i else FirstTokenStart(r, s, i + 1)
  }

  /** `r.exec(s)`. */
  function Exec(r: VersionRegex, s: string): (m: Option<RegexMatch>)
    ensures m.None? <==> forall i :: 0 <= i < |s| ==> !IsTokenStart(r, s[i])
    ensures m.Some? ==>
      && m.value.index + |m.value.text| <= |s|
      && m.value.text == s[m.value.index..m.value.index + |m.value.text|]
      && |m.value.captures| == 4 && m.value.captures[0].Some?
      && (forall k :: 0 <= k < 4 && m.value.captures[k].Some? ==> IsToken(r, m.value.captures[k].value))
    ensures m.Some? ==>
      && m.value.index < |s| && IsTokenStart(r, s[m.value.index])
      && (forall j :: 0 <= j < m.value.index ==> !IsTokenStart(r, s[j]))
      && |m.value.captures[0].value| <= |m.value.text|
      && m.value.text[..|m.value.captures[0].value|] == m.value.captures[0].value
  {
    var i := FirstTokenStart(r, s, 0);
    if i == |s| then None
    else
      var e := TokenEnd(r, s, i);
      var rest := OptionalGroups(r, s, e, 3);
      OptionalGroupsAreTokens(r, s, e, 3);
      TokenEndIsToken(r, s, i);
      SliceStartsWith(s, i, e, rest.1);
      Some(RegexMatch(i, s[i..rest.1], [Some(s[i..e])] + rest.0))
  }

  /** A slice begins with any shorter slice from the same start. */
  lemma SliceStartsWith(s: string, i: nat, e: nat, t: nat)
    requires i <= e <= t <= |s|
    ensures |s[i..e]| <= |s[i..t]| && s[i..t][..|s[i..e]|] == s[i..e]
  {
  }

  /** One optional piece of a match: the delimiter when it was present, then the group's
      text when the group took part. */
  function Piece(r: VersionRegex, delimited: bool, group: Option<string>): string {
    (if delimited then [r.Delimiter()] else []) + group.GetOr([])
  }

  function Pieces(r: VersionRegex, delimited: seq<bool>, groups: seq<Option<string>>): string
    requires |delimited| == |groups|
    decreases |groups|
  {
    if groups == [] then [] else Piece(r, delimited[0], groups[0]) + Pieces(r, delimited[1..], groups[1..])
  }

  /** Which of the optional delimiters the scan from `p` took. */
  function OptionalDelimiters(r: VersionRegex, s: string, p: nat, n: nat): (ds: seq<bool>)
    requires p <= |s|
    ensures |ds| == n
    decreases n
  {
    if n == 0 then []
    else
      var q := if p < |s| && s[p] == r.Delimiter() then p + 1 else p;
      [q == p + 1] + OptionalDelimiters(r, s, TokenEnd(r, s, q), n - 1)
  }

  /** The text the optional pieces scan over is those pieces, one after the other. */
  lemma {:induction false} OptionalGroupsLayout(r: VersionRegex, s: string, p: nat, n: nat)
    requires p <= |s|
    ensures s[p..OptionalGroups(r, s, p, n).1] == Pieces(r, OptionalDelimiters(r, s, p, n), OptionalGroups(r, s, p, n).0)
    decreases n
  {
    if n > 0 {
      var q := if p < |s| && s[p] == r.Delimiter() then p + 1 else p;
      var e := TokenEnd(r, s, q);
      var rest := OptionalGroups(r, s, e, n - 1);
      var ds := OptionalDelimiters(r, s, e, n - 1);
      OptionalGroupsLayout(r, s, e, n - 1);
      var group := if e > q then Some(s[q..e]) else None;
      var d := q == p + 1;
      assert OptionalGroups(r, s, p, n) == ([group] + rest.0, rest.1);
      assert OptionalDelimiters(r, s, p, n) == [d] + ds;
      PieceOfScan(r, s, p, q, e, d, group);
      LayoutStep(s, p, e, rest.1, Piece(r, d, group), Pieces(r, ds, rest.0));
      PiecesCons(r, d, group, ds, rest.0);
    }
  }

  /** The first piece of a scan: the delimiter it took, then the token it read. */
  lemma PieceOfScan(r: VersionRegex, s: string, p: nat, q: nat, e: nat, d: bool, group: Option<string>)
    requires p <= q <= e <= |s|
    requires q == (if p < |s| && s[p] == r.Delimiter() then p + 1 else p) && d == (q == p + 1)
    requires group == if e > q then Some(s[q..e]) else None
    ensures s[p..e] == Piece(r, d, group)
  {
    assert s[p..e] == s[p..q] + s[q..e];
  }

  lemma LayoutStep(s: string, p: nat, e: nat, t: nat, head: string, tail: string)
    requires p <= e <= t <= |s| && s[p..e] == head && s[e..t] == tail
    ensures s[p..t] == head + tail
  {
    assert s[p..t] == s[p..e] + s[e..t];
  }

  lemma PiecesCons(r: VersionRegex, d: bool, g: Option<string>, ds: seq<bool>, gs: seq<Option<string>>)
    requires |ds| == |gs|
    ensures Pieces(r, [d] + ds, [g] + gs) == Piece(r, d, g) + Pieces(r, ds, gs)
  {
    assert ([d] + ds)[1..] == ds && ([g] + gs)[1..] == gs;
  }

  /** The matched text is the first group, then three optional pieces: a delimiter or nothing,
      then a group's text or nothing. A match need not be tokens joined by delimiters: a piece
      may hold a delimiter without a group (`1..2`, `1.`) or a group without a delimiter (`*^`). */
  lemma ExecLayout(r: VersionRegex, s: string)
    requires Exec(r, s).Some?
    ensures var m := Exec(r, s).value;
      exists delimited: seq<bool> :: |delimited| == 3
        && m.text == m.captures[0].value + Pieces(r, delimited, m.captures[1..])
  {
    var i := FirstTokenStart(r, s, 0);
    var e := TokenEnd(r, s, i);
    var rest := OptionalGroups(r, s, e, 3);
    OptionalGroupsLayout(r, s, e, 3);
    var m := Exec(r, s).value;
    var captures := [Some(s[i..e])] + rest.0;
    assert m == RegexMatch(i, s[i..rest.1], captures);
    assert captures[1..] == rest.0 && captures[0].value == s[i..e];
    var delimited := OptionalDelimiters(r, s, e, 3);
    LayoutStep(s, i, e, rest.1, s[i..e], Pieces(r, delimited, rest.0));
    assert m.text == m.captures[0].value + Pieces(r, delimited, m.captures[1..]);
  }

  /** `m && m[0] === s` for `m = r.exec(s)`: the whole of `s` is the match. */
  predicate MatchesWhole(r: VersionRegex, s: string) {
    var m := Exec(r, s);
    m.Some? && m.value.text == s
  }

  /** Each of `ns` preceded by `sep`. */
  function JoinTail(ns: seq<string>, sep: char): string {
    if ns == [] then [] else [sep] + ns[0] + JoinTail(ns[1..], sep)
  }

  /** `n` group values: the strings of `ns` as present groups, then absent ones. */
  function PresentGroups(ns: seq<string>, n: nat): (gs: seq<Option<string>>)
    ensures |gs| == n
  {
    if n == 0 then []
    else if ns == [] then [None] + PresentGroups([], n - 1)
    else [Some(ns[0])] + PresentGroups(ns[1..], n - 1)
  }

  lemma {:induction false} JoinIsHeadAndTail(parts: seq<string>, sep: char)
    requires |parts| > 0
    ensures Join(parts, [sep]) == parts[0] + JoinTail(parts[1..], sep)
  {
    if |parts| > 1 {
      JoinIsHeadAndTail(parts[1..], sep);
      assert parts[1..][1..] == parts[2..];
    }
  }

  lemma {:induction false} DigitsEndOfNumeral(s: string, q: nat, t: string)
    requires q + |t| <= |s| && s[q..q + |t|] == t && AllDigits(t)
    requires q + |t| == |s| || !IsDigit(s[q + |t|])
    ensures DigitsEnd(s, q) == q + |t|
    decreases |t|
  {
    if t != [] {
      assert s[q] == t[0];
      assert s[q + 1..q + 1 + |t[1..]|] == t[1..];
      DigitsEndOfNumeral(s, q + 1, t[1..]);
    }
  }

  lemma SliceOfJoinTail(s: string, p: nat, ns: seq<string>, d: char)
    requires p <= |s| && ns != [] && s[p..] == JoinTail(ns, d)
    ensures p + 1 + |ns[0]| <= |s| && s[p] == d
    ensures s[p + 1..p + 1 + |ns[0]|] == ns[0]
    ensures s[p + 1 + |ns[0]|..] == JoinTail(ns[1..], d)
    ensures p + 1 + |ns[0]| < |s| ==> s[p + 1 + |ns[0]|] == d
  {
    var t := ns[0];
    var u := s[p..];
    assert u == [d] + t + JoinTail(ns[1..], d);
    assert u[0] == d;
    assert u[1..1 + |t|] == t;
    assert u[1 + |t|..] == JoinTail(ns[1..], d);
  }

  /** A token of `r` sitting at `q` and followed by a delimiter or the end is read whole. */
  lemma TokenEndOfToken(r: VersionRegex, s: string, q: nat, t: string)
    requires q + |t| <= |s| && s[q..q + |t|] == t && IsToken(r, t)
    requires q + |t| == |s| || s[q + |t|] == r.Delimiter()
    ensures TokenEnd(r, s, q) == q + |t|
  {
    assert s[q] == t[0];
    if !IsNumeral(t) {
      assert r.AllowsSymbols() && IsSlotSymbol(s[q]);
    } else {
      DigitsEndOfNumeral(s, q, t);
    }
  }

  /** At the end of the text every optional group is absent. */
  lemma {:induction false} OptionalGroupsAtEnd(r: VersionRegex, s: string, n: nat)
    ensures OptionalGroups(r, s, |s|, n) == (PresentGroups([], n), |s|)
    decreases n
  {
    if n > 0 {
      OptionalGroupsAtEnd(r, s, n - 1);
      var rest := OptionalGroups(r, s, |s|, n - 1);
      assert TokenEnd(r, s, |s|) == |s|;
      assert OptionalGroups(r, s, |s|, n) == ([None] + rest.0, rest.1);
    }
  }

  /** From `p` on, `s` is the tokens `ns` of `r`, each preceded by the delimiter, and nothing more. */
  predicate JoinedAt(r: VersionRegex, s: string, p: nat, ns: seq<string>)
    decreases ns
  {
    p <= |s| &&
    if ns == [] then p == |s|
    else
      var e := p + 1 + |ns[0]|;
      && e <= |s| && s[p] == r.Delimiter() && s[p + 1..e] == ns[0] && IsToken(r, ns[0])
      && JoinedAt(r, s, e, ns[1..])
  }

  lemma {:induction false} JoinTailIsJoinedAt(r: VersionRegex, s: string, p: nat, ns: seq<string>)
    requires p <= |s| && s[p..] == JoinTail(ns, r.Delimiter())
    requires forall k :: 0 <= k < |ns| ==> IsToken(r, ns[k])
    ensures JoinedAt(r, s, p, ns)
    decreases ns
  {
    if ns != [] {
      SliceOfJoinTail(s, p, ns, r.Delimiter());
      assert forall k :: 0 <= k < |ns[1..]| ==> IsToken(r, ns[1..][k]);
      JoinTailIsJoinedAt(r, s, p + 1 + |ns[0]|, ns[1..]);
    }
  }

  /** A delimiter then a token followed by a delimiter or the end: the first group captures it. */
  lemma OptionalGroupsStep(r: VersionRegex, s: string, p: nat, t: string, n: nat)
    requires n > 0 && p + 1 + |t| <= |s| && s[p] == r.Delimiter()
    requires s[p + 1..p + 1 + |t|] == t && IsToken(r, t)
    requires p + 1 + |t| == |s| || s[p + 1 + |t|] == r.Delimiter()
    ensures OptionalGroups(r, s, p, n)
         == ([Some(t)] + OptionalGroups(r, s, p + 1 + |t|, n - 1).0, OptionalGroups(r, s, p + 1 + |t|, n - 1).1)
  {
    TokenEndOfToken(r, s, p + 1, t);
  }

  /** A delimiter followed by no token is a group that does not take part. */
  lemma OptionalGroupsEmptyStep(r: VersionRegex, s: string, p: nat, n: nat)
    requires n > 0 && p < |s| && s[p] == r.Delimiter()
    requires p + 1 == |s| || !IsTokenStart(r, s[p + 1])
    ensures OptionalGroups(r, s, p, n)
         == ([None] + OptionalGroups(r, s, p + 1, n - 1).0, OptionalGroups(r, s, p + 1, n - 1).1)
  {
    assert TokenEnd(r, s, p + 1) == p + 1;
  }

  lemma OptionalGroupsOfJoinedStep(r: VersionRegex, s: string, p: nat, ns: seq<string>, n: nat)
    requires JoinedAt(r, s, p, ns) && 0 < |ns| <= n
    requires OptionalGroups(r, s, p + 1 + |ns[0]|, n - 1) == (PresentGroups(ns[1..], n - 1), |s|)
    ensures OptionalGroups(r, s, p, n) == (PresentGroups(ns, n), |s|)
  {
    var e := p + 1 + |ns[0]|;
    assert JoinedAt(r, s, e, ns[1..]);
    assert e == |s| || s[e] == r.Delimiter();
    OptionalGroupsStep(r, s, p, ns[0], n);
    assert PresentGroups(ns, n) == [Some(ns[0])] + PresentGroups(ns[1..], n - 1);
  }

  lemma {:induction false} OptionalGroupsOfJoined(r: VersionRegex, s: string, p: nat, ns: seq<string>, n: nat)
    requires JoinedAt(r, s, p, ns) && |ns| <= n
    ensures OptionalGroups(r, s, p, n) == (PresentGroups(ns, n), |s|)
    decreases n
  {
    if ns == [] {
      OptionalGroupsAtEnd(r, s, n);
    } else {
      OptionalGroupsOfJoined(r, s, p + 1 + |ns[0]|, ns[1..], n - 1);
      OptionalGroupsOfJoinedStep(r, s, p, ns, n);
    }
  }

  /** A delimiter-joined list is its first element, then the rest joined at that position. */
  lemma JoinIsJoinedAt(r: VersionRegex, parts: seq<string>)
    requires 1 <= |parts|
    requires forall k :: 0 <= k < |parts| ==> IsToken(r, parts[k])
    ensures var s := Join(parts, [r.Delimiter()]);
      |parts[0]| <= |s| && s[..|parts[0]|] == parts[0] && JoinedAt(r, s, |parts[0]|, parts[1..])
  {
    var d := r.Delimiter();
    var s := Join(parts, [d]);
    var t := parts[0];
    JoinIsHeadAndTail(parts, d);
    assert s[..|t|] == t && s[|t|..] == JoinTail(parts[1..], d);
    assert forall k :: 0 <= k < |parts[1..]| ==> IsToken(r, parts[1..][k]);
    JoinTailIsJoinedAt(r, s, |t|, parts[1..]);
  }

  /** When the input starts with a token and the optional groups run to its end, the match
      is the whole input. */
  lemma ExecWhole(r: VersionRegex, s: string, e: nat, gs: seq<Option<string>>)
    requires 0 < |s| && IsTokenStart(r, s[0])
    requires TokenEnd(r, s, 0) == e && OptionalGroups(r, s, e, 3) == (gs, |s|)
    ensures Exec(r, s) == Some(RegexMatch(0, s, [Some(s[..e])] + gs))
  {
    assert FirstTokenStart(r, s, 0) == 0;
    assert s[0..|s|] == s && s[0..e] == s[..e];
  }

  /** The first token of a delimiter-joined list ends where the list's first element ends, and
      the optional groups after it are the remaining elements. */
  lemma JoinedTokensScan(r: VersionRegex, parts: seq<string>)
    requires 1 <= |parts| <= 4
    requires forall k :: 0 <= k < |parts| ==> IsToken(r, parts[k])
    ensures var s := Join(parts, [r.Delimiter()]);
      && 0 < |s| && IsTokenStart(r, s[0]) && s[..|parts[0]|] == parts[0]
      && TokenEnd(r, s, 0) == |parts[0]|
      && OptionalGroups(r, s, |parts[0]|, 3) == (PresentGroups(parts[1..], 3), |s|)
  {
    var s := Join(parts, [r.Delimiter()]);
    var t := parts[0];
    JoinIsJoinedAt(r, parts);
    assert |t| == |s| || s[|t|] == r.Delimiter();
    assert s[0..|t|] == t;
    TokenEndOfToken(r, s, 0, t);
    OptionalGroupsOfJoined(r, s, |t|, parts[1..], 3);
    assert s[0] == t[0];
  }

  /** A regex reads a delimiter-joined list of one to four of its tokens whole, and captures
      exactly those tokens, the groups past the last one absent. */
  lemma ExecOfJoinedTokens(r: VersionRegex, parts: seq<string>)
    requires 1 <= |parts| <= 4
    requires forall k :: 0 <= k < |parts| ==> IsToken(r, parts[k])
    ensures Exec(r, Join(parts, [r.Delimiter()]))
         == Some(RegexMatch(0, Join(parts, [r.Delimiter()]), PresentGroups(parts, 4)))
  {
    var s := Join(parts, [r.Delimiter()]);
    JoinedTokensScan(r, parts);
    ExecWhole(r, s, |parts[0]|, PresentGroups(parts[1..], 3));
    assert PresentGroups(parts, 4) == [Some(parts[0])] + PresentGroups(parts[1..], 3);
  }
}
