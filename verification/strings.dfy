/** The JavaScript string primitives the screens use, over `seq<char>`:
    `trim`, `split` on a literal separator, `split` on a one-character
    regular-expression class, `join` and `toUpperCase`. */
module Strings {
  import opened Lists

  /** ECMAScript WhiteSpace and LineTerminator code points: the set that
      `String.prototype.trim` removes and that the regular-expression class
      `\s` matches. */
  const Whitespace: set<char> := {'\U{9}', '\U{A}', '\U{B}', '\U{C}', '\U{D}', '\U{20}', '\U{A0}', '\U{1680}', '\U{2000}', '\U{2001}', '\U{2002}', '\U{2003}', '\U{2004}', '\U{2005}', '\U{2006}', '\U{2007}', '\U{2008}', '\U{2009}', '\U{200A}', '\U{2028}', '\U{2029}', '\U{202F}', '\U{205F}', '\U{3000}', '\U{FEFF}'}

  predicate IsSpace(c: char) {
    c in Whitespace
  }

  /** No printable ASCII character is whitespace. */
  lemma PrintableNotSpace(c: char)
    requires 0x21 <= c as int <= 0x7E
    ensures !IsSpace(c)
  {
  }

  predicate AllSpace(s: string) {
    forall i :: 0 <= i < |s| ==> IsSpace(s[i])
  }

  /** No whitespace at either end; the empty string qualifies. */
  predicate IsTrimmed(s: string) {
    |s| == 0 || (!IsSpace(s[0]) && !IsSpace(s[|s| - 1]))
  }

  predicate NonEmpty(s: string) {
    |s| > 0
  }

  /** Removes leading whitespace. */
  function TrimStart(s: string): (r: string)
    ensures |r| <= |s| && r == s[|s| - |r|..]
    ensures AllSpace(s[..|s| - |r|])
    ensures |r| == 0 || !IsSpace(r[0])
    decreases |s|
  {
    if |s| > 0 && IsSpace(s[0]) then
      var t := TrimStart(s[1..]);
      assert s[..|s| - |t|] == [s[0]] + s[1..][..|s| - 1 - |t|];
      t
    else s
  }

  /** Removes trailing whitespace. */
  function TrimEnd(s: string): (r: string)
    ensures |r| <= |s| && r == s[..|r|]
    ensures AllSpace(s[|r|..])
    ensures |r| == 0 || !IsSpace(r[|r| - 1])
    decreases |s|
  {
    if |s| > 0 && IsSpace(s[|s| - 1]) then
      var t := TrimEnd(s[..|s| - 1]);
      assert s[|t|..] == s[..|s| - 1][|t|..] + [s[|s| - 1]];
      t
    else s
  }

  /** `String.prototype.trim`: whitespace removed from both ends. */
  function Trim(s: string): (r: string)
    ensures IsTrimmed(r)
    ensures |r| <= |s|
  {
    TrimEnd(TrimStart(s))
  }

  /** What `Trim` keeps is the infix of `s` that follows its leading
      whitespace run, and only whitespace surrounds it. */
  lemma TrimSlice(s: string)
    ensures Lead(s) + |Trim(s)| <= |s| && Trim(s) == s[Lead(s)..Lead(s) + |Trim(s)|]
    ensures AllSpace(s[..Lead(s)]) && AllSpace(s[Lead(s) + |Trim(s)|..])
  {
    var t := TrimStart(s);
    var r := TrimEnd(t);
    assert Lead(s) == |s| - |t| && Trim(s) == r;
    InfixOfSuffix(s, t, r);
  }

  /** A prefix `r` of a suffix `t` of `s`, with whitespace cut off around
      both, is an infix of `s` with whitespace around it. */
  lemma InfixOfSuffix(s: string, t: string, r: string)
    requires |t| <= |s| && t == s[|s| - |t|..] && AllSpace(s[..|s| - |t|])
    requires |r| <= |t| && r == t[..|r|] && AllSpace(t[|r|..])
    ensures |s| - |t| + |r| <= |s| && r == s[|s| - |t|..|s| - |t| + |r|]
    ensures AllSpace(s[..|s| - |t|]) && AllSpace(s[|s| - |t| + |r|..])
  {
    assert t[|r|..] == s[|s| - |t| + |r|..];
  }

  /** Length of the leading whitespace run of `s`. */
  function Lead(s: string): nat
  {
    |s| - |TrimStart(s)|
  }

  lemma TrimExcludes(s: string, c: char)
    requires c !in s
    ensures c !in Trim(s)
  {
    TrimSlice(s);
  }

  lemma TrimStartOfTrimmed(s: string)
    requires |s| == 0 || !IsSpace(s[0])
    ensures TrimStart(s) == s
  {
  }

  lemma TrimEndOfTrimmed(s: string)
    requires |s| == 0 || !IsSpace(s[|s| - 1])
    ensures TrimEnd(s) == s
  {
  }

  lemma {:induction false} TrimStartSkipsSpace(w: string, p: string)
    requires AllSpace(w)
    ensures TrimStart(w + p) == TrimStart(p)
    decreases |w|
  {
    if |w| > 0 {
      assert (w + p)[1..] == w[1..] + p;
      TrimStartSkipsSpace(w[1..], p);
    } else {
      assert w + p == p;
    }
  }

  lemma {:induction false} TrimEndSkipsSpace(p: string, w: string)
    requires AllSpace(w)
    ensures TrimEnd(p + w) == TrimEnd(p)
    decreases |w|
  {
    if |w| > 0 {
      assert (p + w)[..|p + w| - 1] == p + w[..|w| - 1];
      TrimEndSkipsSpace(p, w[..|w| - 1]);
    } else {
      assert p + w == p;
    }
  }

  /** Trimming a trimmed text padded with whitespace gives the text back. */
  lemma TrimPadded(w1: string, p: string, w2: string)
    requires AllSpace(w1) && AllSpace(w2) && IsTrimmed(p)
    ensures Trim(w1 + p + w2) == p
  {
    assert w1 + p + w2 == w1 + (p + w2);
    TrimStartSkipsSpace(w1, p + w2);
    if |p| == 0 {
      assert p + w2 == w2;
      assert TrimStart(w2) == "" by {
        assert w2 == w2 + "";
        TrimStartSkipsSpace(w2, "");
      }
      assert TrimStart(w1 + p + w2) == "";
    } else {
      TrimStartOfTrimmed(p + w2);
      TrimEndSkipsSpace(p, w2);
      TrimEndOfTrimmed(p);
    }
  }

  /** A trimmed text is a fixed point of `Trim`. */
  lemma TrimOfTrimmed(s: string)
    requires IsTrimmed(s)
    ensures Trim(s) == s
  {
    TrimStartOfTrimmed(s);
    TrimEndOfTrimmed(s);
  }

  lemma TrimIdempotent(s: string)
    ensures Trim(Trim(s)) == Trim(s)
  {
    TrimOfTrimmed(Trim(s));
  }

  // ---------------------------------------------------------------------
  // Splitting on a literal separator
  // ---------------------------------------------------------------------

  predicate OccursAt(s: string, pat: string, i: int) {
    0 <= i && i + |pat| <= |s| && s[i..i + |pat|] == pat
  }

  predicate Contains(s: string, pat: string) {
    exists i :: 0 <= i <= |s| && OccursAt(s, pat, i)
  }

  /** The least position at or after `k` where `pat` occurs in `s`, or `|s|`
      when there is none. */
  function FirstIndexFrom(s: string, pat: string, k: nat): (r: nat)
    requires |pat| > 0 && k <= |s|
    ensures k <= r <= |s|
    ensures r < |s| ==> OccursAt(s, pat, r)
    ensures forall j :: k <= j < r ==> !OccursAt(s, pat, j)
    ensures r == |s| ==> forall j :: k <= j ==> !OccursAt(s, pat, j)
    decreases |s| - k
  {
    if k + |pat| > |s| then |s|
    else if s[k..k + |pat|] == pat then k
    else FirstIndexFrom(s, pat, k + 1)
  }

  /** `Array.prototype.join`: the elements with `sep` between neighbours. */
  function Join(sep: string, xs: seq<string>): string
    decreases |xs|
  {
    if |xs| == 0 then ""
    else if |xs| == 1 then xs[0]
    else xs[0] + sep + Join(sep, xs[1..])
  }

  lemma JoinCons(sep: string, xs: seq<string>)
    requires |xs| >= 2
    ensures Join(sep, xs) == xs[0] + sep + Join(sep, xs[1..])
  {
  }

  lemma JoinSingle(sep: string, x: string)
    ensures Join(sep, [x]) == x
  {
  }

  /** `String.prototype.split` with a non-empty literal separator: the pieces
      between the occurrences of `sep`, found left to right. */
  function Split(s: string, sep: string): (r: seq<string>)
    requires |sep| > 0
    ensures |r| >= 1
    ensures Join(sep, r) == s
    ensures forall i :: 0 <= i < |r| ==> !Contains(r[i], sep)
    decreases |s|
  {
    var i := FirstIndexFrom(s, sep, 0);
    if i == |s| then
      assert forall j :: !OccursAt(s, sep, j);
      [s]
    else
      var head := s[..i];
      var rest := Split(s[i + |sep|..], sep);
      assert forall j :: !OccursAt(head, sep, j) by {
        forall j | OccursAt(head, sep, j) ensures false {
          assert s[j..j + |sep|] == head[j..j + |sep|];
          assert OccursAt(s, sep, j);
        }
      }
      assert s == head + sep + s[i + |sep|..];
      assert ([head] + rest)[1..] == rest;
      [head] + rest
  }

  /** `sep` holds its character at position `k` nowhere else. */
  predicate MarkedAt(sep: string, k: nat) {
    k < |sep| && forall j :: 0 <= j < |sep| && j != k ==> sep[j] != sep[k]
  }

  lemma ContainsChar(s: string, c: char)
    ensures Contains(s, [c]) <==> c in s
  {
    if c in s {
      var i :| 0 <= i < |s| && s[i] == c;
      assert OccursAt(s, [c], i);
    }
    if Contains(s, [c]) {
      var i :| 0 <= i <= |s| && OccursAt(s, [c], i);
      assert s[i] == s[i..i + 1][0];
    }
  }

  /** No piece of a split on one character holds that character. */
  lemma SplitPiecesLack(s: string, c: char)
    ensures forall i :: 0 <= i < |Split(s, [c])| ==> c !in Split(s, [c])[i]
  {
    var r := Split(s, [c]);
    forall i | 0 <= i < |r| ensures c !in r[i] {
      ContainsChar(r[i], c);
    }
  }

  /** No occurrence of a marked separator starts inside a text that lacks the
      marker character. */
  lemma NoOccurrenceBefore(x: string, sep: string, k: nat, y: string)
    requires MarkedAt(sep, k) && sep[k] !in x
    ensures forall j :: 0 <= j < |x| ==> !OccursAt(x + sep + y, sep, j)
  {
    var s := x + sep + y;
    forall j | 0 <= j < |x| ensures !OccursAt(s, sep, j) {
      if j + k < |x| {
        assert s[j + k] == x[j + k];
      } else {
        assert s[j + k] == sep[j + k - |x|];
      }
      assert j + |sep| <= |s| ==> s[j..j + |sep|][k] == s[j + k];
    }
  }

  lemma NoOccurrenceIn(x: string, sep: string, k: nat)
    requires MarkedAt(sep, k) && sep[k] !in x
    ensures forall j :: !OccursAt(x, sep, j)
  {
    forall j | 0 <= j && j + |sep| <= |x| ensures !OccursAt(x, sep, j) {
      assert x[j..j + |sep|][k] == x[j + k];
    }
  }

  /** Splitting a text without the marker character yields the text alone. */
  lemma SplitNone(x: string, sep: string, k: nat)
    requires MarkedAt(sep, k) && sep[k] !in x
    ensures Split(x, sep) == [x]
  {
    NoOccurrenceIn(x, sep, k);
  }

  /** The first piece ends at the first separator when the text before it
      lacks the marker character. */
  lemma SplitStep(x: string, sep: string, k: nat, y: string)
    requires MarkedAt(sep, k) && sep[k] !in x
    ensures Split(x + sep + y, sep) == [x] + Split(y, sep)
  {
    var s := x + sep + y;
    NoOccurrenceBefore(x, sep, k, y);
    assert s[|x|..|x| + |sep|] == sep;
    assert OccursAt(s, sep, |x|);
    var i := FirstIndexFrom(s, sep, 0);
    assert i == |x|;
    assert s[..i] == x;
    assert s[i + |sep|..] == y;
  }

  /** Split undoes Join when no element holds the separator's marker. */
  lemma {:induction false} SplitJoinMarked(sep: string, k: nat, xs: seq<string>)
    requires MarkedAt(sep, k) && |xs| >= 1
    requires forall i :: 0 <= i < |xs| ==> sep[k] !in xs[i]
    ensures Split(Join(sep, xs), sep) == xs
    decreases |xs|
  {
    if |xs| == 1 {
      JoinSingle(sep, xs[0]);
      assert xs == [xs[0]];
      SplitNone(xs[0], sep, k);
    } else {
      JoinCons(sep, xs);
      SplitStep(xs[0], sep, k, Join(sep, xs[1..]));
      SplitJoinMarked(sep, k, xs[1..]);
      HeadTail(xs);
    }
  }

  /** Number of occurrences of `c` in `s`. */
  function Occurrences(s: string, c: char): nat
    decreases |s|
  {
    if |s| == 0 then 0 else (if s[0] == c then 1 else 0) + Occurrences(s[1..], c)
  }

  lemma {:induction false} OccurrencesConcat(a: string, b: string, c: char)
    ensures Occurrences(a + b, c) == Occurrences(a, c) + Occurrences(b, c)
    decreases |a|
  {
    if |a| == 0 {
      assert a + b == b;
    } else {
      assert (a + b)[1..] == a[1..] + b;
      OccurrencesConcat(a[1..], b, c);
    }
  }

  lemma {:induction false} OccurrencesAbsent(a: string, c: char)
    requires c !in a
    ensures Occurrences(a, c) == 0
    decreases |a|
  {
    if |a| > 0 {
      OccurrencesAbsent(a[1..], c);
    }
  }

  /** Splitting on one character yields one more piece than there are
      occurrences of it. */
  lemma {:induction false} SplitCount(s: string, c: char)
    ensures |Split(s, [c])| == Occurrences(s, c) + 1
    decreases |s|
  {
    var sep := [c];
    assert MarkedAt(sep, 0);
    var i := FirstIndexFrom(s, sep, 0);
    if i == |s| {
      if c in s {
        var j :| 0 <= j < |s| && s[j] == c;
        assert OccursAt(s, sep, j);
      }
      OccurrencesAbsent(s, c);
    } else {
      var x, y := s[..i], s[i + 1..];
      FirstCharSplit(s, c, i);
      SplitStep(x, sep, 0, y);
      SplitCount(y, c);
      OccurrencesAround(x, c, y);
    }
  }

  /** The first occurrence of `c` cuts `s` into a `c`-free head, `c` and the rest. */
  lemma FirstCharSplit(s: string, c: char, i: nat)
    requires i == FirstIndexFrom(s, [c], 0) && i < |s|
    ensures s == s[..i] + [c] + s[i + 1..]
    ensures c !in s[..i]
  {
    forall j | 0 <= j <= i ensures (s[j] == c <==> j == i) {
      OccursAtChar(s, c, j);
    }
    CutAt(s, i);
  }

  lemma OccursAtChar(s: string, c: char, j: nat)
    requires j < |s|
    ensures OccursAt(s, [c], j) <==> s[j] == c
  {
    assert s[j..j + 1] == [s[j]];
  }

  lemma CutAt(s: string, i: nat)
    requires i < |s|
    ensures s == s[..i] + [s[i]] + s[i + 1..]
  {
  }

  lemma OccurrencesAround(x: string, c: char, y: string)
    requires c !in x
    ensures Occurrences(x + [c] + y, c) == Occurrences(y, c) + 1
  {
    assert x + [c] + y == x + ([c] + y);
    OccurrencesConcat(x, [c] + y, c);
    OccurrencesConcat([c], y, c);
    OccurrencesAbsent(x, c);
  }


  lemma {:induction false} JoinExcludes(sep: string, xs: seq<string>, c: char)
    requires c !in sep
    requires forall i :: 0 <= i < |xs| ==> c !in xs[i]
    ensures c !in Join(sep, xs)
    decreases |xs|
  {
    if |xs| > 1 {
      JoinExcludes(sep, xs[1..], c);
    }
  }

  /** A join of sequences each joined with the same separator is the join
      of their concatenation. */
  lemma {:induction false} JoinFlatten(sep: string, ys: seq<string>, xss: seq<seq<string>>)
    requires |ys| == |xss|
    requires forall i :: 0 <= i < |xss| ==> |xss[i]| >= 1 && ys[i] == Join(sep, xss[i])
    ensures Join(sep, ys) == Join(sep, Flatten(xss))
    decreases |xss|
  {
    if |xss| == 0 {
    } else if |xss| == 1 {
      assert Flatten(xss) == xss[0] + Flatten(xss[1..]) == xss[0];
    } else {
      JoinFlatten(sep, ys[1..], xss[1..]);
      JoinAppend(sep, xss[0], Flatten(xss[1..]));
      FlattenNonEmpty(xss[1..]);
    }
  }

  lemma FlattenNonEmpty(xss: seq<seq<string>>)
    requires |xss| >= 1 && |xss[0]| >= 1
    ensures |Flatten(xss)| >= 1
  {
  }

  lemma {:induction false} JoinAppend(sep: string, a: seq<string>, b: seq<string>)
    requires |a| >= 1 && |b| >= 1
    ensures Join(sep, a + b) == Join(sep, a) + sep + Join(sep, b)
    decreases |a|
  {
    if |a| == 1 {
      assert (a + b)[1..] == b;
    } else {
      assert (a + b)[1..] == a[1..] + b;
      JoinAppend(sep, a[1..], b);
    }
  }

  // ---------------------------------------------------------------------
  // Splitting on a one-character class (a regular expression like /\n|\|/)
  // ---------------------------------------------------------------------

  /** The least position at or after `k` holding a character of `cs`, or `|s|`. */
  function FirstIndexOfAny(s: string, cs: set<char>, k: nat): (r: nat)
    requires k <= |s|
    ensures k <= r <= |s|
    ensures r < |s| ==> s[r] in cs
    ensures forall j :: k <= j < r ==> s[j] !in cs
    decreases |s| - k
  {
    if k == |s| then |s|
    else if s[k] in cs then k
    else FirstIndexOfAny(s, cs, k + 1)
  }

  /** `String.prototype.split` with a regular expression matching exactly one
      character of `cs`. */
  function SplitOnAny(s: string, cs: set<char>): (r: seq<string>)
    ensures |r| >= 1
    ensures forall i, j :: 0 <= i < |r| && 0 <= j < |r[i]| ==> r[i][j] !in cs
    decreases |s|
  {
    var i := FirstIndexOfAny(s, cs, 0);
    if i == |s| then [s]
    else
      var rest := SplitOnAny(s[i + 1..], cs);
      assert forall k :: 1 <= k < 1 + |rest| ==> ([s[..i]] + rest)[k] == rest[k - 1];
      [s[..i]] + rest
  }

  /** With a single-character class the two splits agree. */
  lemma {:induction false} SplitOnAnySingle(s: string, c: char)
    ensures SplitOnAny(s, {c}) == Split(s, [c])
    decreases |s|
  {
    var sep := [c];
    assert MarkedAt(sep, 0);
    var i := FirstIndexOfAny(s, {c}, 0);
    if i == |s| {
      assert c !in s;
      SplitNone(s, sep, 0);
    } else {
      var x, y := s[..i], s[i + 1..];
      assert s == x + sep + y;
      SplitStep(x, sep, 0, y);
      SplitOnAnySingle(y, c);
    }
  }

  /** SplitOnAny undoes a join on one of its characters when no element holds
      any of them. */
  lemma {:induction false} SplitOnAnyJoin(s: string, c: char, cs: set<char>, xs: seq<string>)
    requires c in cs && |xs| >= 1 && s == Join([c], xs)
    requires forall i, j :: 0 <= i < |xs| && 0 <= j < |xs[i]| ==> xs[i][j] !in cs
    ensures SplitOnAny(s, cs) == xs
    decreases |xs|
  {
    if |xs| == 1 {
      assert FirstIndexOfAny(s, cs, 0) == |s|;
    } else {
      var y := Join([c], xs[1..]);
      assert s == xs[0] + [c] + y;
      assert s[|xs[0]|] == c;
      var i := FirstIndexOfAny(s, cs, 0);
      assert forall j :: 0 <= j < |xs[0]| ==> s[j] == xs[0][j];
      assert s[..i] == xs[0];
      assert s[i + 1..] == y;
      SplitOnAnyJoin(y, c, cs, xs[1..]);
    }
  }

  /** Splitting on a character class distributes over a join at one of its
      characters. */
  lemma {:induction false} SplitOnAnyConcat(s: string, c: char, cs: set<char>, t: string)
    requires c in cs
    ensures SplitOnAny(s + [c] + t, cs) == SplitOnAny(s, cs) + SplitOnAny(t, cs)
    decreases |s|
  {
    var u := s + [c] + t;
    var i := FirstIndexOfAny(s, cs, 0);
    assert forall j :: 0 <= j < |s| ==> u[j] == s[j];
    assert u[|s|] == c;
    if i == |s| {
      assert FirstIndexOfAny(u, cs, 0) == |s|;
      assert u[..|s|] == s && u[|s| + 1..] == t;
    } else {
      assert FirstIndexOfAny(u, cs, 0) == i;
      assert u[..i] == s[..i];
      assert u[i + 1..] == s[i + 1..] + [c] + t;
      SplitOnAnyConcat(s[i + 1..], c, cs, t);
      ConsAssoc(s[..i], SplitOnAny(s[i + 1..], cs), SplitOnAny(t, cs));
    }
  }

  lemma NotInConcat(c: char, a: string, b: string)
    requires c !in a && c !in b
    ensures c !in a + b
  {
  }

  lemma Regroup(a: string, b: string, c: string, d: string, e: string)
    ensures a + b + c + d + e == a + b + (c + d + e)
  {
  }

  lemma ConsAssoc(x: string, b: seq<string>, d: seq<string>)
    ensures [x] + (b + d) == ([x] + b) + d
  {
  }

  // ---------------------------------------------------------------------
  // Case mapping
  // ---------------------------------------------------------------------

  /** `toUpperCase` of one code point, for Basic Latin and Latin-1 Supplement:
      a-z and the Latin-1 small letters map to their capitals, `ß` to "SS",
      `ÿ` to U+0178 and `µ` to U+039C; every other code point is unchanged. */
  function UpperChar(c: char): (r: string)
    ensures |r| >= 1
    ensures IsSpace(c) ==> r == [c]
    ensures !IsSpace(c) ==> forall i :: 0 <= i < |r| ==> !IsSpace(r[i])
  {
    var n := c as int;
    if 0x61 <= n <= 0x7A then [(n - 0x20) as char]
    else if 0xE0 <= n <= 0xFE && n != 0xF7 then [(n - 0x20) as char]
    else if n == 0xDF then "SS"
    else if n == 0xFF then [0x178 as char]
    else if n == 0xB5 then [0x39C as char]
    else [c]
  }

  /** `String.prototype.toUpperCase` (see `UpperChar` for its range). */
  function ToUpper(s: string): string {
    Flatten(Map(UpperChar, s))
  }

  lemma ToUpperConcat(a: string, b: string)
    ensures ToUpper(a + b) == ToUpper(a) + ToUpper(b)
  {
    MapConcat(UpperChar, a, b);
    FlattenConcat(Map(UpperChar, a), Map(UpperChar, b));
  }

  lemma ToUpperEmpty()
    ensures ToUpper("") == ""
  {
    assert Map(UpperChar, "") == [];
  }

  lemma ToUpperSingle(c: char)
    ensures ToUpper([c]) == UpperChar(c)
  {
    MapSingle(UpperChar, c);
    FlattenCons(UpperChar(c), []);
    assert [UpperChar(c)] + [] == [UpperChar(c)];
  }

  lemma UpperCharIdempotent(c: char)
    ensures ToUpper(UpperChar(c)) == UpperChar(c)
  {
    var u := UpperChar(c);
    if |u| == 1 {
      assert u == [u[0]];
      ToUpperSingle(u[0]);
    } else {
      assert u == "S" + "S";
      ToUpperConcat("S", "S");
      ToUpperSingle('S');
    }
  }

  /** Upper-casing twice is upper-casing once. */
  lemma {:induction false} ToUpperIdempotent(s: string)
    ensures ToUpper(ToUpper(s)) == ToUpper(s)
    decreases |s|
  {
    if |s| > 0 {
      var x, t := s[0], s[1..];
      HeadTail(s);
      ToUpperConcat([x], t);
      ToUpperSingle(x);
      ToUpperConcat(UpperChar(x), ToUpper(t));
      UpperCharIdempotent(x);
      ToUpperIdempotent(t);
    }
  }

  lemma ToUpperFirst(s: string)
    requires |s| > 0
    ensures |ToUpper(s)| > 0 && ToUpper(s)[0] in UpperChar(s[0])
  {
    HeadTail(s);
    UpperFirst(s[0], s[1..]);
  }

  lemma ToUpperLast(s: string)
    requires |s| > 0
    ensures |ToUpper(s)| > 0 && ToUpper(s)[|ToUpper(s)| - 1] in UpperChar(s[|s| - 1])
  {
    var n := |s| - 1;
    assert s[..n] + [s[n]] == s;
    UpperLast(s[..n], s[n]);
  }

  lemma UpperFirst(x: char, t: string)
    ensures |ToUpper([x] + t)| > 0 && ToUpper([x] + t)[0] in UpperChar(x)
  {
    ToUpperConcat([x], t);
    ToUpperSingle(x);
  }

  lemma UpperLast(t: string, x: char)
    ensures var u := ToUpper(t + [x]); |u| > 0 && u[|u| - 1] in UpperChar(x)
  {
    ToUpperConcat(t, [x]);
    ToUpperSingle(x);
  }

  /** Upper-casing neither adds nor removes whitespace at the ends. */
  lemma ToUpperKeepsTrimmed(s: string)
    requires IsTrimmed(s)
    ensures IsTrimmed(ToUpper(s))
  {
    if |s| > 0 {
      ToUpperFirst(s);
      ToUpperLast(s);
    }
  }
}
