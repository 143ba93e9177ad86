/** Python string operations used by the SAGA adapter, stated on `seq<char>`. */
module Text {

  /** The characters that survive name sanitising: ASCII letters, digits and ':'. */
  predicate IsValidChar(c: char) {
    ('a' <= c <= 'z') || ('A' <= c <= 'Z') || ('0' <= c <= '9') || c == ':'
  }

  /** `''.join(c for c in s if c in validChars)` */
  function KeepValid(s: string): (r: string)
    ensures |r| <= |s|
    ensures forall i :: 0 <= i < |r| ==> IsValidChar(r[i]) && r[i] in s
  {
    if s == [] then []
    else (if IsValidChar(s[0]) then [s[0]] else []) + KeepValid(s[1..])
  }

  lemma {:induction false} KeepValidAppend(a: string, b: string)
    ensures KeepValid(a + b) == KeepValid(a) + KeepValid(b)
  {
    if a == [] {
      assert a + b == b;
    } else {
      assert (a + b)[0] == a[0];
      assert (a + b)[1..] == a[1..] + b;
      KeepValidAppend(a[1..], b);
      var h := if IsValidChar(a[0]) then [a[0]] else [];
      assert KeepValid(a + b) == h + KeepValid(a[1..] + b);
      assert KeepValid(a) == h + KeepValid(a[1..]);
    }
  }

  /** A string made of valid characters only passes through unchanged. */
  lemma {:induction false} KeepValidIdentity(s: string)
    requires forall i :: 0 <= i < |s| ==> IsValidChar(s[i])
    ensures KeepValid(s) == s
  {
    if s != [] {
      KeepValidIdentity(s[1..]);
    }
  }

  /** A string without valid characters filters to nothing. */
  lemma {:induction false} KeepValidNone(s: string)
    requires forall i :: 0 <= i < |s| ==> !IsValidChar(s[i])
    ensures KeepValid(s) == []
  {
    if s != [] {
      assert forall i :: 0 <= i < |s[1..]| ==> s[1..][i] == s[i + 1];
      KeepValidNone(s[1..]);
    }
  }

  /** Every valid character occurs in the result exactly as often as in the input, and no other character occurs. */
  lemma {:induction false} KeepValidCounts(s: string, c: char)
    ensures multiset(KeepValid(s))[c] == if IsValidChar(c) then multiset(s)[c] else 0
  {
    if s != [] {
      KeepValidCounts(s[1..], c);
      var head: string := if IsValidChar(s[0]) then [s[0]] else [];
      assert KeepValid(s) == head + KeepValid(s[1..]);
      assert multiset(KeepValid(s)) == multiset(head) + multiset(KeepValid(s[1..]));
      assert s == [s[0]] + s[1..];
      assert multiset(s) == multiset([s[0]]) + multiset(s[1..]);
    }
  }

  /** Python's `str.lower()` on the characters that matter for sanitising: ASCII capitals,
      and the two non-ASCII letters whose lower case contains an ASCII letter. */
  function LowerChar(c: char): string {
    if 'A' <= c <= 'Z' then [(c as int + 32) as char]
    else if c as int == 0x130 then ['i', 0x307 as char]
    else if c as int == 0x212A then ['k']
    else [c]
  }

  function Lower(s: string): string {
    if s == [] then [] else LowerChar(s[0]) + Lower(s[1..])
  }

  lemma {:induction false} LowerHasNoCapitals(s: string)
    ensures forall i :: 0 <= i < |Lower(s)| ==> !('A' <= Lower(s)[i] <= 'Z')
  {
    if s != [] {
      LowerHasNoCapitals(s[1..]);
    }
  }

  /** Python's `str.isspace()` for one character. */
  predicate IsSpace(c: char) {
    var n := c as int;
    n == 0x20 || (0x09 <= n <= 0x0D) || (0x1C <= n <= 0x1F) || n == 0x85 || n == 0xA0 || n == 0x1680
    || (0x2000 <= n <= 0x200A) || n == 0x2028 || n == 0x2029 || n == 0x202F || n == 0x205F || n == 0x3000
  }

  function TrimEnd(s: string): (r: string)
    ensures |r| <= |s| && r == s[..|r|]
    ensures r == [] || !IsSpace(r[|r| - 1])
    ensures forall i :: |r| <= i < |s| ==> IsSpace(s[i])
  {
    if s != [] && IsSpace(s[|s| - 1]) then TrimEnd(s[..|s| - 1]) else s
  }

  /** `str.strip()`: leading whitespace is dropped one character at a time, then the trailing
      whitespace of what is left. */
  function Strip(s: string): (r: string)
    ensures r == [] || (!IsSpace(r[0]) && !IsSpace(r[|r| - 1]))
    decreases |s|
  {
    if s != [] && IsSpace(s[0]) then Strip(s[1..]) else TrimEnd(s)
  }

  predicate StartsWith(s: string, prefix: string) {
    |prefix| <= |s| && s[..|prefix|] == prefix
  }

  predicate EndsWith(s: string, suffix: string) {
    |suffix| <= |s| && s[|s| - |suffix|..] == suffix
  }

  /** Python's `s[n:]` for a non-negative `n`: empty when `n` is past the end. */
  function DropFirst(s: string, n: nat): (r: string)
    ensures |r| == if n <= |s| then |s| - n else 0
  {
    if n <= |s| then s[n..] else []
  }

  /** Python's `s[:-4]`: empty when `s` is shorter than four characters. */
  function DropLast4(s: string): (r: string)
    ensures |r| == if |s| >= 4 then |s| - 4 else 0
  {
    if |s| >= 4 then s[..|s| - 4] else []
  }

  /** `s.split(sep)` for a one-character separator. */
  function Split(s: string, sep: char): (r: seq<string>)
    ensures |r| >= 1
    ensures sep in s <==> |r| >= 2
  {
    if s == [] then [""]
    else if s[0] == sep then [""] + Split(s[1..], sep)
    else
      var t := Split(s[1..], sep);
      [[s[0]] + t[0]] + t[1..]
  }

  /** `sep.join(xs)` for a one-character separator. */
  function Join(sep: char, xs: seq<string>): string {
    if xs == [] then ""
    else if |xs| == 1 then xs[0]
    else xs[0] + [sep] + Join(sep, xs[1..])
  }

  lemma JoinHead(sep: char, c: char, x: string, rest: seq<string>)
    ensures Join(sep, [[c] + x] + rest) == [c] + Join(sep, [x] + rest)
  {
    assert ([[c] + x] + rest)[1..] == rest;
    assert ([x] + rest)[1..] == rest;
  }

  /** Joining the pieces of a split gives back the original string. */
  lemma {:induction false} JoinSplit(s: string, sep: char)
    ensures Join(sep, Split(s, sep)) == s
  {
    if s == [] {
    } else if s[0] == sep {
      JoinSplit(s[1..], sep);
      assert ([""] + Split(s[1..], sep))[1..] == Split(s[1..], sep);
    } else {
      var t := Split(s[1..], sep);
      JoinSplit(s[1..], sep);
      JoinHead(sep, s[0], t[0], t[1..]);
      assert [t[0]] + t[1..] == t;
    }
  }

  lemma {:induction false} SplitWithout(s: string, sep: char)
    requires sep !in s
    ensures Split(s, sep) == [s]
  {
    if s != [] {
      assert s[0] != sep;
      SplitWithout(s[1..], sep);
      assert [s[0]] + s[1..] == s;
    }
  }

  lemma {:induction false} SplitAt(a: string, sep: char, b: string)
    requires sep !in a
    ensures Split(a + [sep] + b, sep) == [a] + Split(b, sep)
  {
    if a == [] {
      assert a + [sep] + b == [sep] + b;
      assert ([sep] + b)[1..] == b;
    } else {
      assert (a + [sep] + b)[1..] == a[1..] + [sep] + b;
      SplitAt(a[1..], sep, b);
      assert [a[0]] + a[1..] == a;
    }
  }

  /** Splitting a join gives back the pieces, provided none of them contains the separator. */
  lemma {:induction false} SplitJoin(xs: seq<string>, sep: char)
    requires |xs| >= 1
    requires forall i :: 0 <= i < |xs| ==> sep !in xs[i]
    ensures Split(Join(sep, xs), sep) == xs
  {
    if |xs| == 1 {
      SplitWithout(xs[0], sep);
    } else {
      SplitJoin(xs[1..], sep);
      SplitAt(xs[0], sep, Join(sep, xs[1..]));
      assert [xs[0]] + xs[1..] == xs;
    }
  }

  /** With a separator in `s`, the first two pieces of the split are the texts before the
      first separator and between the first and the next one (or the end). */
  lemma {:induction false} SplitFirstTwo(s: string, sep: char)
    requires sep in s
    ensures var t := Split(s, sep);
      sep !in t[0] && sep !in t[1] && |t[0]| + 1 + |t[1]| <= |s|
      && s == t[0] + [sep] + t[1] + s[|t[0]| + 1 + |t[1]|..]
      && (|t[0]| + 1 + |t[1]| == |s| || s[|t[0]| + 1 + |t[1]|] == sep)
  {
    var t := Split(s, sep);
    JoinSplit(s, sep);
    SplitPiecesClean(s, sep);
    assert Join(sep, t) == t[0] + [sep] + Join(sep, t[1..]);
    if |t| == 2 {
      assert Join(sep, t[1..]) == t[1];
      assert s == t[0] + [sep] + t[1] + [];
    } else {
      var post := [sep] + Join(sep, t[2..]);
      assert Join(sep, t[1..]) == t[1] + post;
      assert s == t[0] + [sep] + t[1] + post;
    }
  }

  /** `s` is `pre`, a separator, `field` and then either nothing or text starting with a
      separator, with no separator in `pre`: `field` is the second separator-delimited field. */
  predicate SecondFieldAt(s: string, sep: char, pre: string, field: string, post: string) {
    sep !in pre && s == pre + [sep] + field + post && (post == [] || post[0] == sep)
  }

  /** The second piece of a split is the field between the first separator and the next one
      (or the end). */
  lemma SecondField(s: string, sep: char, field: string)
    requires sep in s && field == Split(s, sep)[1]
    ensures sep !in field
    ensures exists pre, post :: SecondFieldAt(s, sep, pre, field, post)
  {
    var t := Split(s, sep);
    SplitFirstTwo(s, sep);
    assert SecondFieldAt(s, sep, t[0], field, s[|t[0]| + 1 + |t[1]|..]);
  }

  lemma {:induction false} SplitPiecesClean(s: string, sep: char)
    ensures forall i :: 0 <= i < |Split(s, sep)| ==> sep !in Split(s, sep)[i]
  {
    if s != [] {
      SplitPiecesClean(s[1..], sep);
    }
  }

  /** Python's `s.replace(target, repl)`: every non-overlapping occurrence, scanning left to right;
      an empty `target` inserts `repl` before every character and at the end. */
  function Replace(s: string, target: string, repl: string): string
    decreases |s|
  {
    if target == [] then
      (if s == [] then repl else repl + [s[0]] + Replace(s[1..], target, repl))
    else if s == [] then []
    else if StartsWith(s, target) then repl + Replace(s[|target|..], target, repl)
    else [s[0]] + Replace(s[1..], target, repl)
  }

  /** The index of the last occurrence of `c`, or -1. */
  function LastIndexOf(s: string, c: char): (r: int)
    ensures -1 <= r < |s|
    ensures r >= 0 ==> s[r] == c
    ensures forall k :: r < k < |s| ==> s[k] != c
  {
    if s == [] then -1 else if s[|s| - 1] == c then |s| - 1 else LastIndexOf(s[..|s| - 1], c)
  }

  /** `os.path.basename` on POSIX: the text after the last '/'. */
  function Basename(p: string): (r: string)
    ensures '/' !in r && EndsWith(p, r)
    ensures |r| == |p| || p[|p| - |r| - 1] == '/'
  {
    if p == [] || p[|p| - 1] == '/' then []
    else Basename(p[..|p| - 1]) + [p[|p| - 1]]
  }

  lemma NotInTail(s: string, c: char, i: nat)
    requires i <= |s|
    requires forall k :: i <= k < |s| ==> s[k] != c
    ensures c !in s[i..]
  {
  }

  /** The dot that starts the extension in `os.path.splitext` on POSIX, or -1:
      the last '.' after the last '/', unless only dots precede it in the base name. */
  function ExtensionStart(p: string): (d: int)
    ensures -1 <= d < |p|
    ensures d >= 0 ==> p[d] == '.' && '/' !in p[d..] && '.' !in p[d + 1..]
  {
    var sepIndex := LastIndexOf(p, '/');
    var dotIndex := LastIndexOf(p, '.');
    if dotIndex > sepIndex && exists k :: sepIndex + 1 <= k < dotIndex && p[k] != '.' then
      NotInTail(p, '/', dotIndex);
      NotInTail(p, '.', dotIndex + 1);
      dotIndex
    else -1
  }

  /** `os.path.splitext(p)[0]` */
  function StemPath(p: string): string {
    var d := ExtensionStart(p);
    if d >= 0 then p[..d] else p
  }

  /** `os.path.splitext(p)[1]` */
  function Extension(p: string): string {
    var d := ExtensionStart(p);
    if d >= 0 then p[d..] else ""
  }

  /** The base name is the text after the last '/'. */
  lemma BasenameAfterLastSlash(p: string)
    ensures Basename(p) == p[LastIndexOf(p, '/') + 1..]
  {
    var b := Basename(p);
    var s := LastIndexOf(p, '/');
    assert b == p[|p| - |b|..];
    if |b| < |p| {
      assert p[|p| - |b| - 1] == '/';
      assert s >= |p| - |b| - 1;
    }
  }

  /** The dot that starts an extension follows a character of the base name that is not a dot. */
  lemma ExtensionHasNonDotBefore(p: string, b: string)
    requires b == p[LastIndexOf(p, '/') + 1..]
    requires ExtensionStart(p) >= 0
    ensures exists j, k :: 0 <= j < k < |b| && b[j] != '.' && b[k] == '.'
  {
    var s := LastIndexOf(p, '/');
    var dot := LastIndexOf(p, '.');
    var k :| s + 1 <= k < dot && p[k] != '.';
    assert b[k - (s + 1)] != '.' && b[dot - (s + 1)] == '.';
  }

  /** A dot of the base name after a character that is not a dot starts an extension. */
  lemma NonDotBeforeDotIsExtension(p: string, b: string, j: nat, k: nat)
    requires b == p[LastIndexOf(p, '/') + 1..]
    requires j < k < |b| && b[j] != '.' && b[k] == '.'
    ensures ExtensionStart(p) >= 0
  {
    var s := LastIndexOf(p, '/');
    var dot := LastIndexOf(p, '.');
    assert p[s + 1 + k] == '.';
    assert dot >= s + 1 + k;
    assert p[s + 1 + j] != '.';
  }

  /** `splitext` finds an extension exactly when the base name has a dot after some character
      that is not a dot. */
  lemma ExtensionStartFound(p: string)
    ensures var b := Basename(p);
      ExtensionStart(p) >= 0 <==> exists j, k :: 0 <= j < k < |b| && b[j] != '.' && b[k] == '.'
  {
    var b := Basename(p);
    BasenameAfterLastSlash(p);
    if ExtensionStart(p) >= 0 {
      ExtensionHasNonDotBefore(p, b);
    }
    if exists j, k :: 0 <= j < k < |b| && b[j] != '.' && b[k] == '.' {
      var j, k :| 0 <= j < k < |b| && b[j] != '.' && b[k] == '.';
      NonDotBeforeDotIsExtension(p, b, j, k);
    }
  }

  /** The two halves of `splitext` put back together give the path; the extension is empty or
      one dot followed by a text without dots or slashes; and there is an extension exactly
      when the base name has a dot after some character that is not a dot, so leading dots
      stay in the stem. */
  lemma SplitExtParts(p: string)
    ensures StemPath(p) + Extension(p) == p
    ensures Extension(p) == [] || (Extension(p)[0] == '.' && '/' !in Extension(p) && '.' !in Extension(p)[1..])
    ensures var b := Basename(p);
      Extension(p) != [] <==> exists j, k :: 0 <= j < k < |b| && b[j] != '.' && b[k] == '.'
  {
    var d := ExtensionStart(p);
    if d >= 0 {
      assert p[..d] + p[d..] == p;
      assert p[d..][1..] == p[d + 1..];
    }
    ExtensionStartFound(p);
  }

  function DigitChar(d: nat): char
    requires d < 10
  {
    ('0' as int + d) as char
  }

  function NatText(n: nat): (r: string)
    ensures |r| >= 1
    ensures forall i :: 0 <= i < |r| ==> '0' <= r[i] <= '9'
  {
    if n < 10 then [DigitChar(n)] else NatText(n / 10) + [DigitChar(n % 10)]
  }

  /** Python's `str(i)` for an integer. */
  function IntText(i: int): (r: string)
    ensures |r| >= 1
    ensures forall k :: 0 <= k < |r| ==> ('0' <= r[k] <= '9') || (k == 0 && r[k] == '-')
    ensures (r[0] == '-') <==> i < 0
  {
    if i < 0 then "-" + NatText(-i) else NatText(i)
  }
}
